/**
 * The move strings the solver of 07_fifteen_puzzle/fifteen_puzzle.py builds from
 * coordinates alone (_zero_direction, move_tile_off_row0, move_zero_above_tile,
 * move_tile_horizontally, move_tile_vertically, _position_tile), in closed form,
 * and where they take the blank.
 */
module FifteenMoves {
  import opened Wrappers
  import opened FifteenBoard

  // ---------------------------------------------------------------- strings

  /** Python's s * n: n copies of s, and the empty string when n <= 0. */
  function Repeat(s: string, n: int): (r: string)
    decreases n
  {
    if n <= 0 then "" else s + Repeat(s, n - 1)
  }

  /** Appending one more copy of s to n copies of s gives n + 1 copies. */
  lemma {:induction false} RepeatSnoc(s: string, n: int)
    requires n >= 0
    ensures Repeat(s, n) + s == Repeat(s, n + 1)
    decreases n
  {
    if n > 0 {
      RepeatSnoc(s, n - 1);
      assert Repeat(s, n) + s == s + (Repeat(s, n - 1) + s);
    }
  }

  function Abs(x: int): nat {
    if x < 0 then -x else x
  }

  /** _zero_direction: +1 (towards larger columns) when zeroCol < tileCol, else -1. */
  function ZeroDirection(zeroCol: int, tileCol: int): (d: int)
    ensures d == 1 || d == -1
    ensures d == 1 <==> zeroCol < tileCol
  {
    if zeroCol < tileCol then 1 else -1
  }

  /** The letter {1: "r", -1: "l"} that moves the blank one column in direction d. */
  function Letter(d: int): char {
    if d == 1 then 'r' else 'l'
  }

  /** The column reached from c after k steps in direction d. */
  function Shifted(c: int, d: int, k: int): int {
    if d == 1 then c + k else c - k
  }

  // ---------------------------------------------------------------- closed forms

  /** move_zero_above_tile: up to the row above the tile, then along to the tile's column. */
  function ZeroAboveTileMoves(zeroRow: int, zeroCol: int, tileRow: int, tileCol: int): string {
    Repeat("u", zeroRow - (tileRow - 1)) + Repeat([Letter(ZeroDirection(zeroCol, tileCol))], Abs(zeroCol - tileCol))
  }

  /** move_tile_off_row0: up to row tileRow + 1, along to the tile's column, then one "u". */
  function OffRow0Moves(zeroRow: int, zeroCol: int, tileRow: int, tileCol: int): string {
    Repeat("u", zeroRow - (tileRow + 1)) + Repeat([Letter(ZeroDirection(zeroCol, tileCol))], Abs(zeroCol - tileCol)) + "u"
  }

  /** The cycle "xdyu" of move_tile_horizontally: x moves towards the target column, y back. */
  function Cycle(d: int): string {
    [Letter(d), 'd', Letter(-d), 'u']
  }

  /**
   * move_tile_horizontally: one cycle per column the tile still has to travel, each but a
   * first one (when the blank starts right above the tile) preceded by a step along, and a
   * final step along.
   */
  function HorizontalMoves(targetCol: int, zeroCol: int, tileCol: int): string {
    var d := ZeroDirection(tileCol, targetCol);
    var n := Abs(targetCol - tileCol);
    if n == 0 then [Letter(d)]
    else if zeroCol == tileCol then Cycle(d) + Repeat([Letter(d)] + Cycle(d), n - 1) + [Letter(d)]
    else Repeat([Letter(d)] + Cycle(d), n) + [Letter(d)]
  }

  /** The row the tile is in once the blank has gone up past it (move_tile_vertically, line 322). */
  function TileRowAfterUps(zeroRow: int, tileRow: int): int {
    if zeroRow > tileRow then tileRow + 1 else tileRow
  }

  /** move_tile_vertically: up to the tile, one "lddru" per row still to descend, then "ld". */
  function VerticalMoves(zeroRow: int, tileRow: int, targetRow: int): string {
    Repeat("u", if zeroRow > tileRow then zeroRow - tileRow else 0)
      + Repeat("lddru", targetRow - TileRowAfterUps(zeroRow, tileRow)) + "ld"
  }

  /** _position_tile with the blank at the target cell. */
  function PositionTileMoves(targetRow: int, targetCol: int, tileRow: int, tileCol: int): string {
    if tileCol != targetCol then
      if tileRow == 0 then
        OffRow0Moves(targetRow, targetCol, tileRow, tileCol)
          + HorizontalMoves(targetCol, tileCol, tileCol) + VerticalMoves(0, 1, targetRow)
      else
        ZeroAboveTileMoves(targetRow, targetCol, tileRow, tileCol)
          + HorizontalMoves(targetCol, tileCol, tileCol) + VerticalMoves(tileRow - 1, tileRow, targetRow)
    else
      VerticalMoves(targetRow, tileRow, targetRow)
  }

  /** solve_col0_tile's moves after its first "ur", with the tile found at tile. */
  function Col0TileMoves(targetRow: int, width: int, tile: Pos): string {
    if tile == Pos(targetRow, 0) then Repeat("r", width - 2)
    else PositionTileMoves(targetRow - 1, 1, tile.row, tile.col) + ("ruldrdlurdluurddlur" + Repeat("r", width - 2))
  }

  /** solve_row0_tile's moves after its first "ld", with the tile found at tile. */
  function Row0TileMoves(targetCol: int, tile: Pos): string {
    if tile.col != targetCol || tile.row != 0 then
      PositionTileMoves(1, targetCol - 1, tile.row, tile.col) + "urdlurrdluldrruld"
    else ""
  }

  /** solve_row1_tile's moves, with the tile found at tile. */
  function Row1TileMoves(targetCol: int, tile: Pos): string {
    PositionTileMoves(1, targetCol, tile.row, tile.col) + "ur"
  }

  // ---------------------------------------------------------------- the blank's path

  /** The blank's cell after one token, or None when update_puzzle would fail on it. */
  function Step(h: nat, w: nat, z: Pos, d: char): Option<Pos> {
    if IsDirection(d) && InBounds(h, w, Neighbour(z, d)) then Some(Neighbour(z, d)) else None
  }

  /** The blank's cell after a move string, or None when some token fails. */
  function Trace(h: nat, w: nat, z: Pos, moves: string): Option<Pos>
    decreases |moves|
  {
    if moves == [] then Some(z)
    else match Step(h, w, z, moves[0])
      case None => None
      case Some(n) => Trace(h, w, n, moves[1..])
  }

  /** Whether update_puzzle succeeds, and where it leaves the blank, depends on the blank's path only. */
  lemma {:induction false} TraceMatchesRun(g: Board, h: nat, w: nat, z: Pos, moves: string)
    requires WellFormed(g, h, w) && InBounds(h, w, z)
    ensures ApplyMoves(g, h, w, z, moves).Done? <==> Trace(h, w, z, moves).Some?
    ensures ApplyMoves(g, h, w, z, moves).Done? ==> ApplyMoves(g, h, w, z, moves).zero == Trace(h, w, z, moves).value
    decreases |moves|
  {
    if moves != [] {
      match Slide(g, h, w, z, moves[0])
      case Err(_) =>
      case Ok(next) => TraceMatchesRun(next.0, h, w, next.1, moves[1..]);
    }
  }

  lemma {:induction false} TraceAppend(h: nat, w: nat, z: Pos, a: string, b: string)
    ensures Trace(h, w, z, a + b) ==
      match Trace(h, w, z, a)
      case None => None
      case Some(z') => Trace(h, w, z', b)
    decreases |a|
  {
    if a == [] {
      assert a + b == b;
    } else {
      assert (a + b)[0] == a[0];
      assert (a + b)[1..] == a[1..] + b;
      match Step(h, w, z, a[0])
      case None =>
      case Some(n) => TraceAppend(h, w, n, a[1..], b);
    }
  }

  /** Where a path of two pieces ends, given where each piece ends. */
  lemma TraceThen(h: nat, w: nat, z: Pos, a: string, m: Pos, b: string, e: Pos)
    requires Trace(h, w, z, a) == Some(m) && Trace(h, w, m, b) == Some(e)
    ensures Trace(h, w, z, a + b) == Some(e)
  {
    TraceAppend(h, w, z, a, b);
  }

  /** The cell k steps from z in direction d. */
  function Toward(z: Pos, d: char, k: int): Pos {
    match d
    case 'l' => Pos(z.row, z.col - k)
    case 'r' => Pos(z.row, z.col + k)
    case 'u' => Pos(z.row - k, z.col)
    case 'd' => Pos(z.row + k, z.col)
    case _ => z
  }

  /** k copies of one token move the blank k cells in a straight line, if both ends are inside. */
  lemma {:induction false} TraceStraight(h: nat, w: nat, z: Pos, d: char, k: nat)
    requires IsDirection(d) && InBounds(h, w, z) && InBounds(h, w, Toward(z, d, k))
    ensures Trace(h, w, z, Repeat([d], k)) == Some(Toward(z, d, k))
    decreases k
  {
    if k > 0 {
      var n := Neighbour(z, d);
      assert Toward(n, d, k - 1) == Toward(z, d, k);
      assert ([d] + Repeat([d], k - 1))[0] == d;
      assert ([d] + Repeat([d], k - 1))[1..] == Repeat([d], k - 1);
      TraceStraight(h, w, n, d, k - 1);
    }
  }

  /** The blank walks along its row to column c. */
  lemma TraceToColumn(h: nat, w: nat, z: Pos, c: int)
    requires InBounds(h, w, z) && 0 <= c < w
    ensures Trace(h, w, z, Repeat([Letter(ZeroDirection(z.col, c))], Abs(z.col - c))) == Some(Pos(z.row, c))
  {
    var d := ZeroDirection(z.col, c);
    TraceStraight(h, w, z, Letter(d), Abs(z.col - c));
  }

  /** The blank walks up its column by k rows. */
  lemma TraceUp(h: nat, w: nat, z: Pos, k: int)
    requires InBounds(h, w, z) && k <= z.row
    ensures Trace(h, w, z, Repeat("u", k)) == Some(Pos(z.row - (if k < 0 then 0 else k), z.col))
  {
    if k > 0 {
      TraceStraight(h, w, z, 'u', k);
    }
  }

  /**
   * move_zero_above_tile applied from blank (zeroRow, zeroCol) leaves the blank at
   * (tileRow - 1, tileCol), directly above the tile.
   */
  lemma ZeroAboveTileEnds(h: nat, w: nat, zeroRow: int, zeroCol: int, tileRow: int, tileCol: int)
    requires InBounds(h, w, Pos(zeroRow, zeroCol)) && InBounds(h, w, Pos(tileRow, tileCol))
    requires 1 <= tileRow <= zeroRow + 1
    ensures Trace(h, w, Pos(zeroRow, zeroCol), ZeroAboveTileMoves(zeroRow, zeroCol, tileRow, tileCol))
      == Some(Pos(tileRow - 1, tileCol))
  {
    var z := Pos(zeroRow, zeroCol);
    var m := Pos(tileRow - 1, zeroCol);
    TraceUp(h, w, z, zeroRow - (tileRow - 1));
    TraceToColumn(h, w, m, tileCol);
    TraceThen(h, w, z, Repeat("u", zeroRow - (tileRow - 1)), m,
      Repeat([Letter(ZeroDirection(zeroCol, tileCol))], Abs(zeroCol - tileCol)), Pos(tileRow - 1, tileCol));
  }

  /**
   * move_tile_off_row0 applied from blank (zeroRow, zeroCol) leaves the blank at the
   * tile's old cell (tileRow, tileCol), coming from the cell below it.
   */
  lemma OffRow0Ends(h: nat, w: nat, zeroRow: int, zeroCol: int, tileRow: int, tileCol: int)
    requires InBounds(h, w, Pos(zeroRow, zeroCol)) && InBounds(h, w, Pos(tileRow, tileCol))
    requires tileRow + 1 <= zeroRow
    ensures Trace(h, w, Pos(zeroRow, zeroCol), OffRow0Moves(zeroRow, zeroCol, tileRow, tileCol))
      == Some(Pos(tileRow, tileCol))
  {
    var z := Pos(zeroRow, zeroCol);
    var m := Pos(tileRow + 1, zeroCol);
    var m' := Pos(tileRow + 1, tileCol);
    var ups := Repeat("u", zeroRow - (tileRow + 1));
    var along := Repeat([Letter(ZeroDirection(zeroCol, tileCol))], Abs(zeroCol - tileCol));
    TraceUp(h, w, z, zeroRow - (tileRow + 1));
    TraceToColumn(h, w, m, tileCol);
    TraceThen(h, w, z, ups, m, along, m');
    assert Trace(h, w, m', "u") == Some(Pos(tileRow, tileCol));
    TraceThen(h, w, z, ups + along, m', "u", Pos(tileRow, tileCol));
  }

  /** One cycle from above the tile takes the blank round the cell beside it and back. */
  lemma TraceCycle(h: nat, w: nat, z: Pos, d: int)
    requires d == 1 || d == -1
    requires InBounds(h, w, z) && InBounds(h, w, Pos(z.row + 1, Shifted(z.col, d, 1)))
    ensures Trace(h, w, z, Cycle(d)) == Some(z)
  {
    var c := Cycle(d);
    assert c[1..] == ['d', Letter(-d), 'u'];
    assert c[1..][1..] == [Letter(-d), 'u'];
    assert c[1..][1..][1..] == ['u'];
  }

  /** k rounds of "step along, cycle" move the blank k columns along its row (visiting one more). */
  lemma {:induction false} TraceRounds(h: nat, w: nat, z: Pos, d: int, k: nat)
    requires d == 1 || d == -1
    requires InBounds(h, w, z) && z.row + 1 < h && 0 <= Shifted(z.col, d, k + 1) < w
    ensures Trace(h, w, z, Repeat([Letter(d)] + Cycle(d), k)) == Some(Pos(z.row, Shifted(z.col, d, k)))
    decreases k
  {
    if k > 0 {
      var n := Pos(z.row, Shifted(z.col, d, 1));
      assert Trace(h, w, z, [Letter(d)]) == Some(n);
      TraceCycle(h, w, n, d);
      TraceThen(h, w, z, [Letter(d)], n, Cycle(d), n);
      assert [Letter(d)] + Cycle(d) + Repeat([Letter(d)] + Cycle(d), k - 1) == Repeat([Letter(d)] + Cycle(d), k);
      TraceRounds(h, w, n, d, k - 1);
      assert Shifted(n.col, d, k - 1) == Shifted(z.col, d, k);
      TraceThen(h, w, z, [Letter(d)] + Cycle(d), n, Repeat([Letter(d)] + Cycle(d), k - 1), Pos(z.row, Shifted(z.col, d, k)));
    }
  }

  /**
   * move_tile_horizontally from a blank right above the tile, on a row with a row below it,
   * leaves the blank at (row, targetCol): above the tile's new cell.
   */
  lemma HorizontalEnds(h: nat, w: nat, zeroRow: int, tileCol: int, targetCol: int)
    requires 0 <= zeroRow && zeroRow + 1 < h && 0 <= tileCol < w && 0 <= targetCol < w && tileCol != targetCol
    ensures Trace(h, w, Pos(zeroRow, tileCol), HorizontalMoves(targetCol, tileCol, tileCol))
      == Some(Pos(zeroRow, targetCol))
  {
    var d := ZeroDirection(tileCol, targetCol);
    var n := Abs(targetCol - tileCol);
    var z := Pos(zeroRow, tileCol);
    var e := Pos(zeroRow, Shifted(tileCol, d, n - 1));
    TraceCycle(h, w, z, d);
    TraceRounds(h, w, z, d, n - 1);
    TraceThen(h, w, z, Cycle(d), z, Repeat([Letter(d)] + Cycle(d), n - 1), e);
    assert Trace(h, w, e, [Letter(d)]) == Some(Pos(zeroRow, targetCol));
    TraceThen(h, w, z, Cycle(d) + Repeat([Letter(d)] + Cycle(d), n - 1), e, [Letter(d)], Pos(zeroRow, targetCol));
  }

  /** k rounds of "lddru" from above the tile move the blank k rows down its column. */
  lemma {:induction false} TraceDescents(h: nat, w: nat, z: Pos, k: nat)
    requires InBounds(h, w, z) && 1 <= z.col && z.row + k + 1 < h
    ensures Trace(h, w, z, Repeat("lddru", k)) == Some(Pos(z.row + k, z.col))
    decreases k
  {
    if k > 0 {
      var n := Pos(z.row + 1, z.col);
      var s := "lddru";
      assert s[0] == 'l' && s[1..] == "ddru" && s[1..][1..] == "dru" && s[1..][1..][1..] == "ru";
      assert s[1..][1..][1..][1..] == "u";
      assert Trace(h, w, z, s) == Some(n);
      TraceDescents(h, w, n, k - 1);
      TraceThen(h, w, z, s, n, Repeat(s, k - 1), Pos(z.row + k, z.col));
    }
  }

  /**
   * move_tile_vertically, from the blank right above the tile or further down its column,
   * leaves the blank at (targetRow, col - 1), left of the tile's new cell.
   */
  lemma VerticalEnds(h: nat, w: nat, zeroRow: int, tileRow: int, targetRow: int, col: int)
    requires 1 <= col < w && 0 <= zeroRow && 0 <= tileRow && targetRow < h
    requires zeroRow == tileRow - 1 || tileRow < zeroRow <= targetRow
    requires TileRowAfterUps(zeroRow, tileRow) <= targetRow
    ensures Trace(h, w, Pos(zeroRow, col), VerticalMoves(zeroRow, tileRow, targetRow))
      == Some(Pos(targetRow, col - 1))
  {
    var z := Pos(zeroRow, col);
    var ups := if zeroRow > tileRow then zeroRow - tileRow else 0;
    var tr := TileRowAfterUps(zeroRow, tileRow);
    var m := Pos(tr - 1, col);
    TraceUp(h, w, z, ups);
    TraceDescents(h, w, m, targetRow - tr);
    TraceThen(h, w, z, Repeat("u", ups), m, Repeat("lddru", targetRow - tr), Pos(targetRow - 1, col));
    assert "ld"[1..] == "d";
    assert Trace(h, w, Pos(targetRow - 1, col), "ld") == Some(Pos(targetRow, col - 1));
    TraceThen(h, w, z, Repeat("u", ups) + Repeat("lddru", targetRow - tr), Pos(targetRow - 1, col), "ld", Pos(targetRow, col - 1));
  }

  /**
   * The tile may be anywhere the solver ever finds it: not on the target cell, in a row
   * not below the target, and strictly above it when in the target's column.
   */
  predicate Reachable(targetRow: int, targetCol: int, tileRow: int, tileCol: int) {
    tileRow <= targetRow && (tileCol == targetCol ==> tileRow < targetRow)
  }

  /**
   * _position_tile from the blank at the target cell never moves the blank off the grid
   * and leaves it at (targetRow, targetCol - 1), left of the target cell.
   */
  lemma PositionTileEnds(h: nat, w: nat, targetRow: int, targetCol: int, tileRow: int, tileCol: int)
    requires 1 <= targetRow < h && 1 <= targetCol < w && InBounds(h, w, Pos(tileRow, tileCol))
    requires Reachable(targetRow, targetCol, tileRow, tileCol)
    ensures Trace(h, w, Pos(targetRow, targetCol), PositionTileMoves(targetRow, targetCol, tileRow, tileCol))
      == Some(Pos(targetRow, targetCol - 1))
  {
    var z := Pos(targetRow, targetCol);
    var e := Pos(targetRow, targetCol - 1);
    if tileCol != targetCol {
      var first, zr, tr;
      if tileRow == 0 {
        first, zr, tr := OffRow0Moves(targetRow, targetCol, tileRow, tileCol), 0, 1;
        OffRow0Ends(h, w, targetRow, targetCol, tileRow, tileCol);
      } else {
        first, zr, tr := ZeroAboveTileMoves(targetRow, targetCol, tileRow, tileCol), tileRow - 1, tileRow;
        ZeroAboveTileEnds(h, w, targetRow, targetCol, tileRow, tileCol);
      }
      var across := HorizontalMoves(targetCol, tileCol, tileCol);
      HorizontalEnds(h, w, zr, tileCol, targetCol);
      TraceThen(h, w, z, first, Pos(zr, tileCol), across, Pos(zr, targetCol));
      VerticalEnds(h, w, zr, tr, targetRow, targetCol);
      TraceThen(h, w, z, first + across, Pos(zr, targetCol), VerticalMoves(zr, tr, targetRow), e);
    } else {
      VerticalEnds(h, w, targetRow, tileRow, targetRow, targetCol);
    }
  }
}
