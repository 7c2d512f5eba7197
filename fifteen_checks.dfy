/**
 * The solver's run-time checks of 07_fifteen_puzzle/fifteen_puzzle.py on a grid value:
 * current_position, and lower_row_invariant, row0_invariant and row1_invariant as the
 * scans they are, each stopping at the first misplaced cell or at the first label it
 * cannot find. The lemmas say what a scan's answer means.
 */
module FifteenChecks {
  import opened Wrappers
  import opened FifteenBoard

  /** current_position's outcome on a grid: the cell found for v, or the failed assertion. */
  function PositionOf(g: Board, h: nat, w: nat, v: int): (res: Result<Pos, Failure>)
    requires WellFormed(g, h, w)
    ensures res.Ok? ==> InBounds(h, w, res.value) && At(g, res.value) == v
  {
    match Locate(g, h, w, v)
    case Some(p) => Ok(p)
    case None => Err(TileNotFound(v))
  }

  /** A failed check blames a label that occurs nowhere on the grid. */
  predicate Missing(g: Board, h: nat, w: nat, f: Failure)
    requires WellFormed(g, h, w)
  {
    f.TileNotFound? && Locate(g, h, w, f.value).None?
  }

  /** Row r is solved in columns from .. to - 1. */
  predicate RunSolved(g: Board, h: nat, w: nat, r: int, from: int, to: int)
    requires WellFormed(g, h, w)
  {
    forall cc :: from <= cc < to ==> InPlace(g, h, w, r, cc)
  }

  /** Rows lo + 1 .. hi are solved. */
  predicate RowsSolvedBetween(g: Board, h: nat, w: nat, lo: int, hi: int)
    requires WellFormed(g, h, w)
  {
    forall rr, cc :: lo < rr <= hi && 0 <= cc < w ==> InPlace(g, h, w, rr, cc)
  }

  // ---------------------------------------------------------------- the scans

  /** Columns col - 1 down to from of row r, as in "while col > target_col". */
  function ScanLeft(g: Board, h: nat, w: nat, r: int, from: int, col: int): Result<bool, Failure>
    requires WellFormed(g, h, w)
    decreases col - from
  {
    if col <= from then Ok(true)
    else match PositionOf(g, h, w, Label(w, Pos(r, col - 1)))
      case Err(e) => Err(e)
      case Ok(p) => if p != Pos(r, col - 1) then Ok(false) else ScanLeft(g, h, w, r, from, col - 1)
  }

  /** Columns col .. w - 1 of row r, as in "for dummy_col in range(col, width)". */
  function ScanRight(g: Board, h: nat, w: nat, r: int, col: int): Result<bool, Failure>
    requires WellFormed(g, h, w)
    decreases w - col
  {
    if col >= w then Ok(true)
    else match PositionOf(g, h, w, Label(w, Pos(r, col)))
      case Err(e) => Err(e)
      case Ok(p) => if p != Pos(r, col) then Ok(false) else ScanRight(g, h, w, r, col + 1)
  }

  /** Rows row down to lo + 1, each from its last column to its first, as in "while row > target_row". */
  function ScanRows(g: Board, h: nat, w: nat, lo: int, row: int): Result<bool, Failure>
    requires WellFormed(g, h, w)
    decreases row - lo
  {
    if row <= lo then Ok(true)
    else match ScanLeft(g, h, w, row, 0, w)
      case Err(e) => Err(e)
      case Ok(solved) => if !solved then Ok(false) else ScanRows(g, h, w, lo, row - 1)
  }

  /** lower_row_invariant(r, c) on a grid. */
  function LowerRowCheck(g: Board, h: nat, w: nat, r: int, c: int): Result<bool, Failure>
    requires WellFormed(g, h, w) && InBounds(h, w, Pos(r, c))
  {
    if At(g, Pos(r, c)) != 0 then Ok(false)
    else match ScanRows(g, h, w, r, h - 1)
      case Err(e) => Err(e)
      case Ok(below) =>
        if !below then Ok(false)
        else if c < w - 1 then ScanLeft(g, h, w, r, c + 1, w)
        else Ok(true)
  }

  /** row0_invariant(c) on a grid. */
  function Row0Check(g: Board, h: nat, w: nat, c: int): Result<bool, Failure>
    requires WellFormed(g, h, w) && InBounds(h, w, Pos(0, c))
  {
    if At(g, Pos(0, c)) != 0 then Ok(false)
    else match ScanRight(g, h, w, 0, c + 1)
      case Err(e) => Err(e)
      case Ok(row0) =>
        if !row0 then Ok(false)
        else match ScanRight(g, h, w, 1, c)
          case Err(e) => Err(e)
          case Ok(row1) => if !row1 then Ok(false) else ScanRows(g, h, w, 1, h - 1)
  }

  /** row1_invariant(c) on a grid. */
  function Row1Check(g: Board, h: nat, w: nat, c: int): Result<bool, Failure>
    requires WellFormed(g, h, w) && InBounds(h, w, Pos(1, c))
  {
    match LowerRowCheck(g, h, w, 1, c)
    case Err(e) => Err(e)
    case Ok(lower) => if !lower then Ok(false) else ScanRight(g, h, w, 0, c + 1)
  }

  // ---------------------------------------------------------------- what the scans mean

  /** A cell the scan looks at is in place exactly when current_position returns it. */
  lemma FoundInPlace(g: Board, h: nat, w: nat, r: int, c: int)
    requires WellFormed(g, h, w) && PositionOf(g, h, w, Label(w, Pos(r, c))).Ok?
    ensures InPlace(g, h, w, r, c) <==> PositionOf(g, h, w, Label(w, Pos(r, c))).value == Pos(r, c)
  {
  }

  lemma {:induction false} ScanLeftMeaning(g: Board, h: nat, w: nat, r: int, from: int, col: int)
    requires WellFormed(g, h, w)
    ensures ScanLeft(g, h, w, r, from, col).Ok? ==> (ScanLeft(g, h, w, r, from, col).value <==> RunSolved(g, h, w, r, from, col))
    ensures ScanLeft(g, h, w, r, from, col).Err? ==> Missing(g, h, w, ScanLeft(g, h, w, r, from, col).error)
    ensures AllPresent(g, h, w) && 0 <= r < h && 0 <= from && col <= w ==> ScanLeft(g, h, w, r, from, col).Ok?
    decreases col - from
  {
    if col > from {
      var v := Label(w, Pos(r, col - 1));
      if 0 <= r < h && 0 <= col - 1 < w {
        assert AllPresent(g, h, w) ==> Locate(g, h, w, v).Some?;
      }
      if PositionOf(g, h, w, v).Ok? {
        FoundInPlace(g, h, w, r, col - 1);
        ScanLeftMeaning(g, h, w, r, from, col - 1);
      }
    }
  }

  lemma {:induction false} ScanRightMeaning(g: Board, h: nat, w: nat, r: int, col: int)
    requires WellFormed(g, h, w)
    ensures ScanRight(g, h, w, r, col).Ok? ==> (ScanRight(g, h, w, r, col).value <==> RowSolvedFrom(g, h, w, r, col))
    ensures ScanRight(g, h, w, r, col).Err? ==> Missing(g, h, w, ScanRight(g, h, w, r, col).error)
    ensures AllPresent(g, h, w) && 0 <= r < h && 0 <= col ==> ScanRight(g, h, w, r, col).Ok?
    decreases w - col
  {
    if col < w {
      var v := Label(w, Pos(r, col));
      if 0 <= r < h && 0 <= col {
        assert AllPresent(g, h, w) ==> Locate(g, h, w, v).Some?;
      }
      if PositionOf(g, h, w, v).Ok? {
        FoundInPlace(g, h, w, r, col);
        ScanRightMeaning(g, h, w, r, col + 1);
      }
    }
  }

  lemma {:induction false} ScanRowsMeaning(g: Board, h: nat, w: nat, lo: int, row: int)
    requires WellFormed(g, h, w)
    ensures ScanRows(g, h, w, lo, row).Ok? ==> (ScanRows(g, h, w, lo, row).value <==> RowsSolvedBetween(g, h, w, lo, row))
    ensures ScanRows(g, h, w, lo, row).Err? ==> Missing(g, h, w, ScanRows(g, h, w, lo, row).error)
    ensures AllPresent(g, h, w) && row < h && -1 <= lo ==> ScanRows(g, h, w, lo, row).Ok?
    decreases row - lo
  {
    if row > lo {
      ScanLeftMeaning(g, h, w, row, 0, w);
      ScanRowsMeaning(g, h, w, lo, row - 1);
      if ScanLeft(g, h, w, row, 0, w) == Ok(true) && ScanRows(g, h, w, lo, row - 1).Ok? {
        assert RowsSolvedBetween(g, h, w, lo, row) <==> RunSolved(g, h, w, row, 0, w) && RowsSolvedBetween(g, h, w, lo, row - 1);
      }
    }
  }

  lemma BelowIsBetween(g: Board, h: nat, w: nat, r: int)
    requires WellFormed(g, h, w)
    ensures RowsSolvedBelow(g, h, w, r) == RowsSolvedBetween(g, h, w, r, h - 1)
  {
  }

  /** lower_row_invariant answers LowerRowHolds, and fails only on a missing label. */
  lemma LowerRowCheckMeaning(g: Board, h: nat, w: nat, r: int, c: int)
    requires WellFormed(g, h, w) && InBounds(h, w, Pos(r, c))
    ensures LowerRowCheck(g, h, w, r, c).Ok? ==> LowerRowCheck(g, h, w, r, c).value == LowerRowHolds(g, h, w, r, c)
    ensures LowerRowCheck(g, h, w, r, c).Err? ==> Missing(g, h, w, LowerRowCheck(g, h, w, r, c).error)
    ensures AllPresent(g, h, w) ==> LowerRowCheck(g, h, w, r, c).Ok?
  {
    ScanRowsMeaning(g, h, w, r, h - 1);
    ScanLeftMeaning(g, h, w, r, c + 1, w);
    BelowIsBetween(g, h, w, r);
    assert RowSolvedFrom(g, h, w, r, c + 1) == RunSolved(g, h, w, r, c + 1, w);
  }

  /** row0_invariant answers Row0Holds, and fails only on a missing label. */
  lemma Row0CheckMeaning(g: Board, h: nat, w: nat, c: int)
    requires WellFormed(g, h, w) && InBounds(h, w, Pos(0, c))
    ensures Row0Check(g, h, w, c).Ok? ==> Row0Check(g, h, w, c).value == Row0Holds(g, h, w, c)
    ensures Row0Check(g, h, w, c).Err? ==> Missing(g, h, w, Row0Check(g, h, w, c).error)
    ensures AllPresent(g, h, w) && h >= 2 ==> Row0Check(g, h, w, c).Ok?
  {
    if At(g, Pos(0, c)) == 0 {
      ScanRightMeaning(g, h, w, 0, c + 1);
      if ScanRight(g, h, w, 0, c + 1) == Ok(true) {
        ScanRightMeaning(g, h, w, 1, c);
        if ScanRight(g, h, w, 1, c) == Ok(true) {
          ScanRowsMeaning(g, h, w, 1, h - 1);
          BelowIsBetween(g, h, w, 1);
        }
      }
    }
  }

  /** row1_invariant answers Row1Holds, and fails only on a missing label. */
  lemma Row1CheckMeaning(g: Board, h: nat, w: nat, c: int)
    requires WellFormed(g, h, w) && InBounds(h, w, Pos(1, c))
    ensures Row1Check(g, h, w, c).Ok? ==> Row1Check(g, h, w, c).value == Row1Holds(g, h, w, c)
    ensures Row1Check(g, h, w, c).Err? ==> Missing(g, h, w, Row1Check(g, h, w, c).error)
    ensures AllPresent(g, h, w) ==> Row1Check(g, h, w, c).Ok?
  {
    LowerRowCheckMeaning(g, h, w, 1, c);
    ScanRightMeaning(g, h, w, 0, c + 1);
  }

  // ---------------------------------------------------------------- the three checks as one

  /** The cell a check names is on the grid. */
  predicate Checkable(h: nat, w: nat, c: Check) {
    match c
    case LowerRow(r, col) => InBounds(h, w, Pos(r, col))
    case Row0(col) => InBounds(h, w, Pos(0, col))
    case Row1(col) => InBounds(h, w, Pos(1, col))
  }

  /** The invariant a check names. */
  predicate Holds(g: Board, h: nat, w: nat, c: Check)
    requires WellFormed(g, h, w) && Checkable(h, w, c)
  {
    match c
    case LowerRow(r, col) => LowerRowHolds(g, h, w, r, col)
    case Row0(col) => Row0Holds(g, h, w, col)
    case Row1(col) => Row1Holds(g, h, w, col)
  }

  /** Running the named check on a grid. */
  function CheckOn(g: Board, h: nat, w: nat, c: Check): Result<bool, Failure>
    requires WellFormed(g, h, w) && Checkable(h, w, c)
  {
    match c
    case LowerRow(r, col) => LowerRowCheck(g, h, w, r, col)
    case Row0(col) => Row0Check(g, h, w, col)
    case Row1(col) => Row1Check(g, h, w, col)
  }

  /** Every check answers its invariant; on a grid holding every label it always answers. */
  lemma CheckOnMeaning(g: Board, h: nat, w: nat, c: Check)
    requires WellFormed(g, h, w) && Checkable(h, w, c)
    ensures CheckOn(g, h, w, c).Ok? ==> CheckOn(g, h, w, c).value == Holds(g, h, w, c)
    ensures CheckOn(g, h, w, c).Err? ==> Missing(g, h, w, CheckOn(g, h, w, c).error)
    ensures AllPresent(g, h, w) && (c.Row0? ==> h >= 2) ==> CheckOn(g, h, w, c).Ok?
  {
    match c
    case LowerRow(r, col) => LowerRowCheckMeaning(g, h, w, r, col);
    case Row0(col) => Row0CheckMeaning(g, h, w, col);
    case Row1(col) => Row1CheckMeaning(g, h, w, col);
  }
}
