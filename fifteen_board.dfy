/**
 * Value-level model of the sliding-tile board of 07_fifteen_puzzle/fifteen_puzzle.py:
 * the grid as a sequence of rows, what one move token and a move string do to it,
 * where a tile is found, and the three "already solved" predicates the solver checks.
 * The Puzzle class of fifteen_puzzle.dfy is specified in terms of these functions.
 */
module FifteenBoard {
  import opened Wrappers

  /** A cell of the grid, (row, col) as in the source's tuples. */
  datatype Pos = Pos(row: int, col: int)

  /** Tile labels, grid[row][col]; the label 0 is the blank. */
  type Board = seq<seq<int>>

  /** The invariant a phase checks on entry or exit. */
  datatype Check = LowerRow(row: int, col: int) | Row0(col: int) | Row1(col: int)

  /** The source's failed assertions, as values. */
  datatype Failure =
    | TileNotFound(value: int)          // current_position: "Value ... not found"
    | MoveOffGrid(direction: char)      // update_puzzle: "move off grid"
    | InvalidDirection(direction: char) // update_puzzle: "invalid direction"
    | PreTestFailed(check: Check)       // "Failed pre-test ..."
    | PostTestFailed(check: Check)      // "Failed post-test ..."
    | Unsolvable                        // the 2x2 rotation can never reach the solved corner

  // ---------------------------------------------------------------- cells

  predicate WellFormed(g: Board, h: nat, w: nat) {
    |g| == h && forall r :: 0 <= r < h ==> |g[r]| == w
  }

  predicate InBounds(h: nat, w: nat, p: Pos) {
    0 <= p.row < h && 0 <= p.col < w
  }

  predicate Inside(g: Board, p: Pos) {
    0 <= p.row < |g| && 0 <= p.col < |g[p.row]|
  }

  function At(g: Board, p: Pos): int
    requires Inside(g, p)
  {
    g[p.row][p.col]
  }

  /** The board with cell p set to v (set_number on a value). */
  function Put(g: Board, p: Pos, v: int): (g': Board)
    requires Inside(g, p)
    ensures |g'| == |g| && forall r :: 0 <= r < |g| ==> |g'[r]| == |g[r]|
    ensures forall q :: Inside(g, q) ==> At(g', q) == if q == p then v else At(g, q)
  {
    g[p.row := g[p.row][p.col := v]]
  }

  /** The label that belongs at p in the solved grid. */
  function Label(w: nat, p: Pos): int {
    p.col + w * p.row
  }

  /** The solved grid: grid[r][c] == c + width * r. */
  function SolvedBoard(h: nat, w: nat): (g: Board)
    ensures WellFormed(g, h, w)
    ensures forall p :: InBounds(h, w, p) ==> At(g, p) == Label(w, p)
  {
    seq(h, r => seq(w, c => c + w * r))
  }

  /** Two boards of the same shape that agree on every cell are equal. */
  lemma BoardsEqual(a: Board, b: Board, h: nat, w: nat)
    requires WellFormed(a, h, w) && WellFormed(b, h, w)
    requires forall p :: InBounds(h, w, p) ==> At(a, p) == At(b, p)
    ensures a == b
  {
    forall r | 0 <= r < h ensures a[r] == b[r] {
      forall c | 0 <= c < w ensures a[r][c] == b[r][c] {
        assert At(a, Pos(r, c)) == At(b, Pos(r, c));
      }
    }
  }

  // ---------------------------------------------------------------- search

  /** Row-major order of cells, the order current_position scans them in. */
  predicate Before(p: Pos, q: Pos) {
    p.row < q.row || (p.row == q.row && p.col < q.col)
  }

  function IndexOf(row: seq<int>, v: int, from: nat): (i: Option<nat>)
    requires from <= |row|
    ensures i.Some? ==> from <= i.value < |row| && row[i.value] == v
    decreases |row| - from
  {
    if from == |row| then None
    else if row[from] == v then Some(from)
    else IndexOf(row, v, from + 1)
  }

  /** IndexOf finds the first occurrence at or after from, and None means there is none. */
  lemma {:induction false} IndexOfFirst(row: seq<int>, v: int, from: nat)
    requires from <= |row|
    ensures IndexOf(row, v, from).Some? ==> forall k :: from <= k < IndexOf(row, v, from).value ==> row[k] != v
    ensures IndexOf(row, v, from).None? ==> forall k :: from <= k < |row| ==> row[k] != v
    decreases |row| - from
  {
    if from < |row| && row[from] != v {
      IndexOfFirst(row, v, from + 1);
    }
  }

  function LocateFrom(g: Board, h: nat, w: nat, v: int, r: nat): (p: Option<Pos>)
    requires WellFormed(g, h, w) && r <= h
    ensures p.Some? ==> r <= p.value.row && InBounds(h, w, p.value) && At(g, p.value) == v
    decreases h - r
  {
    if r == h then None
    else match IndexOf(g[r], v, 0)
      case Some(c) => Some(Pos(r, c))
      case None => LocateFrom(g, h, w, v, r + 1)
  }

  /** LocateFrom finds the first cell from row r on, in row-major order, holding v. */
  lemma {:induction false} LocateFromFirst(g: Board, h: nat, w: nat, v: int, r: nat)
    requires WellFormed(g, h, w) && r <= h
    ensures LocateFrom(g, h, w, v, r).Some? ==>
      forall q :: InBounds(h, w, q) && r <= q.row && Before(q, LocateFrom(g, h, w, v, r).value) ==> At(g, q) != v
    ensures LocateFrom(g, h, w, v, r).None? ==> forall q :: InBounds(h, w, q) && r <= q.row ==> At(g, q) != v
    decreases h - r
  {
    if r < h {
      IndexOfFirst(g[r], v, 0);
      if IndexOf(g[r], v, 0).None? {
        LocateFromFirst(g, h, w, v, r + 1);
      }
    }
  }

  /** current_position on a value: the first cell, in row-major order, holding v. */
  function Locate(g: Board, h: nat, w: nat, v: int): (p: Option<Pos>)
    requires WellFormed(g, h, w)
    ensures p.Some? ==> InBounds(h, w, p.value) && At(g, p.value) == v
  {
    LocateFrom(g, h, w, v, 0)
  }

  /** No cell before the one Locate finds holds v, and None means no cell holds v. */
  lemma LocateFirstCell(g: Board, h: nat, w: nat, v: int)
    requires WellFormed(g, h, w)
    ensures Locate(g, h, w, v).Some? ==> forall q :: InBounds(h, w, q) && Before(q, Locate(g, h, w, v).value) ==> At(g, q) != v
    ensures Locate(g, h, w, v).None? ==> forall q :: InBounds(h, w, q) ==> At(g, q) != v
  {
    LocateFromFirst(g, h, w, v, 0);
  }

  /** The tile that belongs at (r, c) is found there: current_position(r, c) == (r, c). */
  predicate InPlace(g: Board, h: nat, w: nat, r: int, c: int)
    requires WellFormed(g, h, w)
  {
    Locate(g, h, w, Label(w, Pos(r, c))) == Some(Pos(r, c))
  }

  ghost predicate Distinct(g: Board, h: nat, w: nat)
    requires WellFormed(g, h, w)
  {
    forall p, q {:trigger At(g, p), At(g, q)} :: InBounds(h, w, p) && InBounds(h, w, q) && p != q ==> At(g, p) != At(g, q)
  }

  /** Every label of the solved grid occurs somewhere. */
  ghost predicate AllPresent(g: Board, h: nat, w: nat)
    requires WellFormed(g, h, w)
  {
    forall p {:trigger Locate(g, h, w, Label(w, p))} :: InBounds(h, w, p) ==> Locate(g, h, w, Label(w, p)).Some?
  }

  ghost predicate InRange(g: Board, h: nat, w: nat)
    requires WellFormed(g, h, w)
  {
    forall p :: InBounds(h, w, p) ==> 0 <= At(g, p) < h * w
  }

  /** The grid holds each of 0 .. h*w-1 exactly once. */
  ghost predicate IsPermutation(g: Board, h: nat, w: nat) {
    WellFormed(g, h, w) && Distinct(g, h, w) && AllPresent(g, h, w) && InRange(g, h, w)
  }

  /** On a grid without repeated labels, the cell found for v is the only one holding v. */
  lemma LocateUnique(g: Board, h: nat, w: nat, p: Pos)
    requires WellFormed(g, h, w) && Distinct(g, h, w) && InBounds(h, w, p)
    ensures Locate(g, h, w, At(g, p)) == Some(p)
    ensures forall q :: InBounds(h, w, q) && At(g, q) == At(g, p) ==> q == p
  {
    var v := At(g, p);
    LocateFirstCell(g, h, w, v);
    assert InBounds(h, w, p) && At(g, p) == v;
  }

  /** Without repeated labels, "current_position(r, c) == (r, c)" is "grid[r][c] == c + width*r". */
  lemma InPlaceIffLabel(g: Board, h: nat, w: nat, r: int, c: int)
    requires WellFormed(g, h, w) && Distinct(g, h, w) && InBounds(h, w, Pos(r, c))
    ensures InPlace(g, h, w, r, c) <==> At(g, Pos(r, c)) == c + w * r
  {
    if At(g, Pos(r, c)) == c + w * r {
      LocateUnique(g, h, w, Pos(r, c));
    }
  }

  // ---------------------------------------------------------------- invariants

  /** Row r is solved from column c on. */
  predicate RowSolvedFrom(g: Board, h: nat, w: nat, r: int, c: int)
    requires WellFormed(g, h, w)
  {
    forall cc :: c <= cc < w ==> InPlace(g, h, w, r, cc)
  }

  /** Every row below row r is solved. */
  predicate RowsSolvedBelow(g: Board, h: nat, w: nat, r: int)
    requires WellFormed(g, h, w)
  {
    forall rr, cc :: r < rr < h && 0 <= cc < w ==> InPlace(g, h, w, rr, cc)
  }

  /** lower_row_invariant: blank at (r, c), all rows below r solved, row r solved right of c. */
  predicate LowerRowHolds(g: Board, h: nat, w: nat, r: int, c: int)
    requires WellFormed(g, h, w) && InBounds(h, w, Pos(r, c))
  {
    At(g, Pos(r, c)) == 0 && RowsSolvedBelow(g, h, w, r) && RowSolvedFrom(g, h, w, r, c + 1)
  }

  /** row1_invariant: lower_row_invariant(1, c) and row 0 solved right of c. */
  predicate Row1Holds(g: Board, h: nat, w: nat, c: int)
    requires WellFormed(g, h, w) && InBounds(h, w, Pos(1, c))
  {
    LowerRowHolds(g, h, w, 1, c) && RowSolvedFrom(g, h, w, 0, c + 1)
  }

  /** row0_invariant: blank at (0, c), row 0 solved right of c, row 1 solved from c, rows >= 2 solved. */
  predicate Row0Holds(g: Board, h: nat, w: nat, c: int)
    requires WellFormed(g, h, w) && InBounds(h, w, Pos(0, c))
  {
    && At(g, Pos(0, c)) == 0
    && RowSolvedFrom(g, h, w, 0, c + 1)
    && RowSolvedFrom(g, h, w, 1, c)
    && RowsSolvedBelow(g, h, w, 1)
  }

  /** Labels of distinct cells differ. */
  lemma LabelInjective(w: nat, p: Pos, q: Pos)
    requires 0 <= p.col < w && 0 <= q.col < w && 0 <= p.row && 0 <= q.row
    requires Label(w, p) == Label(w, q)
    ensures p == q
  {
    if p.row < q.row {
      RowsApart(w, p.row, q.row);
    } else if q.row < p.row {
      RowsApart(w, q.row, p.row);
    }
  }

  /** A row further down starts at a label at least one full row higher. */
  lemma RowsApart(w: nat, a: int, b: int)
    requires 0 <= a < b
    ensures w * a + w <= w * b
  {
    var d := b - a;
    assert w * b == w * a + w * d;
    assert w * d == w + w * (d - 1);
    assert w * (d - 1) >= 0;
  }

  lemma SolvedBoardIsPermutation(h: nat, w: nat)
    ensures IsPermutation(SolvedBoard(h, w), h, w)
  {
    var g := SolvedBoard(h, w);
    forall p, q | InBounds(h, w, p) && InBounds(h, w, q) && p != q
      ensures At(g, p) != At(g, q)
    {
      if At(g, p) == At(g, q) { LabelInjective(w, p, q); }
    }
    forall p | InBounds(h, w, p) ensures Locate(g, h, w, Label(w, p)).Some? {
      LocateUnique(g, h, w, p);
    }
    forall p | InBounds(h, w, p) ensures 0 <= At(g, p) < h * w {
      RowsApart(w, p.row, h);
      assert w * h == h * w;
    }
  }

  /** The 2x2 loop of solve_2x2 stops on row0_invariant(0): that is exactly the solved grid. */
  lemma {:induction false} Row0AtCornerIffSolved(g: Board, h: nat, w: nat)
    requires WellFormed(g, h, w) && h >= 2 && w >= 1
    ensures Row0Holds(g, h, w, 0) <==> g == SolvedBoard(h, w)
  {
    var s := SolvedBoard(h, w);
    if Row0Holds(g, h, w, 0) {
      forall p | InBounds(h, w, p) ensures At(g, p) == At(s, p) {
        if p != Pos(0, 0) {
          assert InPlace(g, h, w, p.row, p.col);
        }
      }
      BoardsEqual(g, s, h, w);
    }
    if g == s {
      SolvedBoardIsPermutation(h, w);
      forall r, c | 0 <= r < h && 0 <= c < w ensures InPlace(g, h, w, r, c) {
        InPlaceIffLabel(g, h, w, r, c);
      }
    }
  }

  // ---------------------------------------------------------------- moves

  predicate IsDirection(d: char) {
    d == 'l' || d == 'r' || d == 'u' || d == 'd'
  }

  /** The cell next to p in direction d; the blank moves there. */
  function Neighbour(p: Pos, d: char): Pos {
    match d
    case 'l' => Pos(p.row, p.col - 1)
    case 'r' => Pos(p.row, p.col + 1)
    case 'u' => Pos(p.row - 1, p.col)
    case 'd' => Pos(p.row + 1, p.col)
    case _ => p
  }

  /** g' is g with the tile at n moved into z and the blank written at n; all else unchanged. */
  ghost predicate SlidFrom(g: Board, h: nat, w: nat, z: Pos, n: Pos, g': Board)
    requires WellFormed(g, h, w) && InBounds(h, w, z) && InBounds(h, w, n)
  {
    && WellFormed(g', h, w)
    && At(g', z) == At(g, n)
    && At(g', n) == 0
    && forall p :: InBounds(h, w, p) && p != z && p != n ==> At(g', p) == At(g, p)
  }

  /** One token of update_puzzle applied with the blank at z. */
  function Slide(g: Board, h: nat, w: nat, z: Pos, d: char): (res: Result<(Board, Pos), Failure>)
    requires WellFormed(g, h, w) && InBounds(h, w, z)
    ensures res.Err? <==> !IsDirection(d) || !InBounds(h, w, Neighbour(z, d))
    ensures res.Err? && !IsDirection(d) ==> res.error == InvalidDirection(d)
    ensures res.Err? && IsDirection(d) ==> res.error == MoveOffGrid(d)
    ensures res.Ok? ==> res.value.1 == Neighbour(z, d) && InBounds(h, w, res.value.1)
    ensures res.Ok? ==> SlidFrom(g, h, w, z, res.value.1, res.value.0)
  {
    if !IsDirection(d) then Err(InvalidDirection(d))
    else
      var n := Neighbour(z, d);
      if !InBounds(h, w, n) then Err(MoveOffGrid(d))
      else Ok((Put(Put(g, z, At(g, n)), n, 0), n))
  }

  /** The assertions update_puzzle itself can fail: no blank, a move off the grid, an unknown token. */
  predicate UpdateFailure(f: Failure) {
    f.TileNotFound? || f.MoveOffGrid? || f.InvalidDirection?
  }

  /** The state a move string leaves: all tokens done, or stopped at the first failing one. */
  datatype Run = Done(board: Board, zero: Pos) | Stopped(board: Board, failure: Failure)

  function ApplyMoves(g: Board, h: nat, w: nat, z: Pos, moves: string): (run: Run)
    requires WellFormed(g, h, w) && InBounds(h, w, z)
    ensures WellFormed(run.board, h, w)
    ensures run.Done? ==> InBounds(h, w, run.zero)
    ensures run.Stopped? ==> run.failure.MoveOffGrid? || run.failure.InvalidDirection?
    decreases |moves|
  {
    if moves == [] then Done(g, z)
    else match Slide(g, h, w, z, moves[0])
      case Err(f) => Stopped(g, f)
      case Ok(next) => ApplyMoves(next.0, h, w, next.1, moves[1..])
  }

  /** The first token of a move string decides how its run starts. */
  lemma ApplyMovesFirst(g: Board, h: nat, w: nat, z: Pos, moves: string)
    requires WellFormed(g, h, w) && InBounds(h, w, z) && moves != []
    ensures Slide(g, h, w, z, moves[0]).Err? ==> ApplyMoves(g, h, w, z, moves) == Stopped(g, Slide(g, h, w, z, moves[0]).error)
    ensures Slide(g, h, w, z, moves[0]).Ok? ==>
      ApplyMoves(g, h, w, z, moves) == ApplyMoves(Slide(g, h, w, z, moves[0]).value.0, h, w, Slide(g, h, w, z, moves[0]).value.1, moves[1..])
  {
  }

  /** update_puzzle: find the blank, then apply the tokens in order. */
  function Update(g: Board, h: nat, w: nat, moves: string): (run: Run)
    requires WellFormed(g, h, w)
    ensures WellFormed(run.board, h, w)
    ensures run.Done? ==> InBounds(h, w, run.zero)
    ensures run.Stopped? ==> UpdateFailure(run.failure)
  {
    match Locate(g, h, w, 0)
    case None => Stopped(g, TileNotFound(0))
    case Some(z) => ApplyMoves(g, h, w, z, moves)
  }

  /** One slide from a real blank exchanges two cells: the tile now at p came from Swap(p). */
  function SwapSource(z: Pos, n: Pos, p: Pos): Pos {
    if p == z then n else if p == n then z else p
  }

  lemma SlideIsSwap(g: Board, h: nat, w: nat, z: Pos, n: Pos, g': Board)
    requires WellFormed(g, h, w) && InBounds(h, w, z) && InBounds(h, w, n) && z != n
    requires At(g, z) == 0 && SlidFrom(g, h, w, z, n, g')
    ensures forall p :: InBounds(h, w, p) ==> At(g', p) == At(g, SwapSource(z, n, p))
  {
  }

  lemma SlideKeepsDistinct(g: Board, h: nat, w: nat, z: Pos, n: Pos, g': Board)
    requires WellFormed(g, h, w) && InBounds(h, w, z) && InBounds(h, w, n) && z != n
    requires At(g, z) == 0 && SlidFrom(g, h, w, z, n, g')
    requires Distinct(g, h, w)
    ensures Distinct(g', h, w)
  {
    SlideIsSwap(g, h, w, z, n, g');
    forall p, q | InBounds(h, w, p) && InBounds(h, w, q) && p != q
      ensures At(g', p) != At(g', q)
    {
      assert SwapSource(z, n, p) != SwapSource(z, n, q);
    }
  }

  lemma SlideKeepsPresent(g: Board, h: nat, w: nat, z: Pos, n: Pos, g': Board)
    requires WellFormed(g, h, w) && InBounds(h, w, z) && InBounds(h, w, n) && z != n
    requires At(g, z) == 0 && SlidFrom(g, h, w, z, n, g')
    requires AllPresent(g, h, w)
    ensures AllPresent(g', h, w)
  {
    forall l | InBounds(h, w, l) ensures Locate(g', h, w, Label(w, l)).Some? {
      StillPresent(g, h, w, z, n, g', Label(w, l));
    }
  }

  /** A label the grid holds before a slide, it still holds after it. */
  lemma StillPresent(g: Board, h: nat, w: nat, z: Pos, n: Pos, g': Board, v: int)
    requires WellFormed(g, h, w) && InBounds(h, w, z) && InBounds(h, w, n) && z != n
    requires At(g, z) == 0 && SlidFrom(g, h, w, z, n, g')
    requires Locate(g, h, w, v).Some?
    ensures Locate(g', h, w, v).Some?
  {
    var p := Locate(g, h, w, v).value;
    var p' := SwapSource(z, n, p);
    assert At(g', p') == v;
    Found(g', h, w, p', v);
  }

  /** A value held by some cell is found. */
  lemma Found(g: Board, h: nat, w: nat, p: Pos, v: int)
    requires WellFormed(g, h, w) && InBounds(h, w, p) && At(g, p) == v
    ensures Locate(g, h, w, v).Some?
  {
    LocateFirstCell(g, h, w, v);
  }

  lemma SlideKeepsRange(g: Board, h: nat, w: nat, z: Pos, n: Pos, g': Board)
    requires WellFormed(g, h, w) && InBounds(h, w, z) && InBounds(h, w, n) && z != n
    requires At(g, z) == 0 && SlidFrom(g, h, w, z, n, g')
    requires InRange(g, h, w)
    ensures InRange(g', h, w)
  {
    SlideIsSwap(g, h, w, z, n, g');
    forall p | InBounds(h, w, p) ensures 0 <= At(g', p) < h * w {
      assert InBounds(h, w, SwapSource(z, n, p));
    }
  }

  lemma SlideKeepsPermutation(g: Board, h: nat, w: nat, z: Pos, n: Pos, g': Board)
    requires WellFormed(g, h, w) && InBounds(h, w, z) && InBounds(h, w, n) && z != n
    requires At(g, z) == 0 && SlidFrom(g, h, w, z, n, g')
    ensures Distinct(g, h, w) ==> Distinct(g', h, w)
    ensures IsPermutation(g, h, w) ==> IsPermutation(g', h, w)
  {
    if Distinct(g, h, w) { SlideKeepsDistinct(g, h, w, z, n, g'); }
    if IsPermutation(g, h, w) {
      SlideKeepsPresent(g, h, w, z, n, g');
      SlideKeepsRange(g, h, w, z, n, g');
    }
  }

  /** A move string applied from the blank keeps the blank tracked and a permutation a permutation. */
  lemma {:induction false} ApplyMovesKeepsPermutation(g: Board, h: nat, w: nat, z: Pos, moves: string)
    requires WellFormed(g, h, w) && InBounds(h, w, z) && At(g, z) == 0
    ensures Distinct(g, h, w) ==> Distinct(ApplyMoves(g, h, w, z, moves).board, h, w)
    ensures IsPermutation(g, h, w) ==> IsPermutation(ApplyMoves(g, h, w, z, moves).board, h, w)
    ensures ApplyMoves(g, h, w, z, moves).Done? ==> BlankAt(ApplyMoves(g, h, w, z, moves))
    decreases |moves|
  {
    if moves != [] {
      match Slide(g, h, w, z, moves[0])
      case Err(_) =>
      case Ok(next) =>
        assert next.1 != z;
        SlideKeepsPermutation(g, h, w, z, next.1, next.0);
        ApplyMovesKeepsPermutation(next.0, h, w, next.1, moves[1..]);
    }
  }

  /** A finished run has the blank on the cell it reports. */
  predicate BlankAt(run: Run)
    requires run.Done?
  {
    Inside(run.board, run.zero) && At(run.board, run.zero) == 0
  }

  /** Permutation invariant: update_puzzle never changes which labels the grid holds. */
  lemma UpdateKeepsPermutation(g: Board, h: nat, w: nat, moves: string)
    requires WellFormed(g, h, w)
    ensures Distinct(g, h, w) ==> Distinct(Update(g, h, w, moves).board, h, w)
    ensures IsPermutation(g, h, w) ==> IsPermutation(Update(g, h, w, moves).board, h, w)
  {
    match Locate(g, h, w, 0)
    case None =>
    case Some(z) => ApplyMovesKeepsPermutation(g, h, w, z, moves);
  }

  /** Applying a + b is applying a, then b from where a left the blank. */
  lemma {:induction false} ApplyMovesAppend(g: Board, h: nat, w: nat, z: Pos, a: string, b: string)
    requires WellFormed(g, h, w) && InBounds(h, w, z)
    ensures ApplyMoves(g, h, w, z, a + b) ==
      match ApplyMoves(g, h, w, z, a)
      case Done(g', z') => ApplyMoves(g', h, w, z', b)
      case Stopped(g', f) => Stopped(g', f)
    decreases |a|
  {
    if a == [] {
      assert a + b == b;
    } else {
      assert (a + b)[0] == a[0];
      assert (a + b)[1..] == a[1..] + b;
      match Slide(g, h, w, z, a[0])
      case Err(_) =>
      case Ok(next) => ApplyMovesAppend(next.0, h, w, next.1, a[1..], b);
    }
  }

  /**
   * Two update_puzzle calls in a row are one call on the concatenated string, provided
   * the first succeeds and the grid has a single blank (it looks the blank up again).
   */
  lemma UpdateAppend(g: Board, h: nat, w: nat, a: string, b: string)
    requires WellFormed(g, h, w) && Distinct(g, h, w) && Update(g, h, w, a).Done?
    ensures Update(g, h, w, a + b) == Update(Update(g, h, w, a).board, h, w, b)
    ensures Distinct(Update(g, h, w, a).board, h, w)
  {
    var z := Locate(g, h, w, 0).value;
    ApplyMovesAppend(g, h, w, z, a, b);
    ApplyMovesKeepsPermutation(g, h, w, z, a);
    var run := ApplyMoves(g, h, w, z, a);
    LocateUnique(run.board, h, w, run.zero);
  }

  /** The empty move string changes nothing. */
  lemma UpdateEmpty(g: Board, h: nat, w: nat)
    requires WellFormed(g, h, w) && Locate(g, h, w, 0).Some?
    ensures Update(g, h, w, "") == Done(g, Locate(g, h, w, 0).value)
  {
  }

  /** update_puzzle(m) succeeds on g and leaves the grid g'. */
  ghost predicate Reaches(g: Board, h: nat, w: nat, m: string, g': Board)
    requires WellFormed(g, h, w)
  {
    Update(g, h, w, m).Done? && Update(g, h, w, m).board == g'
  }

  /** The move strings of two successful update_puzzle calls add up, on a grid with one blank. */
  lemma ReachesTrans(g0: Board, g1: Board, g2: Board, h: nat, w: nat, a: string, b: string)
    requires WellFormed(g0, h, w) && Distinct(g0, h, w)
    requires Reaches(g0, h, w, a, g1) && Reaches(g1, h, w, b, g2)
    ensures Reaches(g0, h, w, a + b, g2)
  {
    UpdateAppend(g0, h, w, a, b);
  }

  /** A successful "ul" needs a row above and a column left of the blank. */
  lemma UpLeftNeedsTwoByTwo(g: Board, h: nat, w: nat)
    requires WellFormed(g, h, w) && Update(g, h, w, "ul").Done?
    ensures h >= 2 && w >= 2
  {
    assert "ul"[0] == 'u' && "ul"[1..] == "l";
  }

  /** A successful "ld" needs a row below the blank's row. */
  lemma LeftDownNeedsTwoRows(g: Board, h: nat, w: nat)
    requires WellFormed(g, h, w) && Update(g, h, w, "ld").Done?
    ensures h >= 2
  {
    assert "ld"[0] == 'l' && "ld"[1..] == "d";
  }

  // ---------------------------------------------------------------- the 2x2 rotation

  /** The 2x2 block whose top-left corner is z is inside the grid. */
  predicate BlockInside(h: nat, w: nat, z: Pos) {
    0 <= z.row && z.row + 1 < h && 0 <= z.col && z.col + 1 < w
  }

  /**
   * g' is g with the three tiles of the 2x2 block at z other than the blank cycled:
   * right <- below-right, below-right <- below, below <- right; all else unchanged.
   */
  ghost predicate CycledFrom(g: Board, h: nat, w: nat, z: Pos, g': Board)
    requires WellFormed(g, h, w) && BlockInside(h, w, z)
  {
    var right, below, diag := Pos(z.row, z.col + 1), Pos(z.row + 1, z.col), Pos(z.row + 1, z.col + 1);
    && WellFormed(g', h, w)
    && At(g', z) == At(g, z)
    && At(g', right) == At(g, diag)
    && At(g', diag) == At(g, below)
    && At(g', below) == At(g, right)
    && forall p :: InBounds(h, w, p) && p != z && p != right && p != below && p != diag ==> At(g', p) == At(g, p)
  }

  /** "rdlu" from a blank at z returns the blank to z and cycles the rest of the block. */
  lemma RotationCycles(g: Board, h: nat, w: nat, z: Pos)
    requires WellFormed(g, h, w) && BlockInside(h, w, z) && At(g, z) == 0
    ensures ApplyMoves(g, h, w, z, "rdlu").Done?
    ensures ApplyMoves(g, h, w, z, "rdlu").zero == z
    ensures CycledFrom(g, h, w, z, ApplyMoves(g, h, w, z, "rdlu").board)
  {
    var right, below, diag := Pos(z.row, z.col + 1), Pos(z.row + 1, z.col), Pos(z.row + 1, z.col + 1);
    var s1 := Slide(g, h, w, z, 'r').value;
    var s2 := Slide(s1.0, h, w, right, 'd').value;
    var s3 := Slide(s2.0, h, w, diag, 'l').value;
    var s4 := Slide(s3.0, h, w, below, 'u').value;
    assert "rdlu"[0] == 'r' && "rdlu"[1..] == "dlu";
    assert "dlu"[0] == 'd' && "dlu"[1..] == "lu";
    assert "lu"[0] == 'l' && "lu"[1..] == "u";
    assert "u"[0] == 'u' && "u"[1..] == "";
    assert ApplyMoves(s4.0, h, w, s4.1, "") == Done(s4.0, z);
  }

  /** Cycling three tiles three times puts each back. */
  lemma CycleThrice(g: Board, g1: Board, g2: Board, g3: Board, h: nat, w: nat, z: Pos)
    requires WellFormed(g, h, w) && BlockInside(h, w, z)
    requires CycledFrom(g, h, w, z, g1) && CycledFrom(g1, h, w, z, g2) && CycledFrom(g2, h, w, z, g3)
    ensures g3 == g
  {
    BoardsEqual(g3, g, h, w);
  }

  // ---------------------------------------------------------------- the loop of solve_2x2

  /** The loop body of solve_2x2: update_puzzle("rdlu"), None if it fails. */
  function Rotate(b: Board, h: nat, w: nat): (r: Option<Board>)
    ensures r.Some? ==> WellFormed(b, h, w) && WellFormed(r.value, h, w)
  {
    if !WellFormed(b, h, w) then None
    else
      var run := Update(b, h, w, "rdlu");
      if run.Done? then Some(run.board) else None
  }

  /** The grid after k passes of a loop body, None once one of them fails. */
  function Iterate(g: Board, step: Board -> Option<Board>, k: nat): Option<Board>
    decreases k
  {
    if k == 0 then Some(g)
    else match Iterate(g, step, k - 1)
      case None => None
      case Some(b) => step(b)
  }

  /** The grids the loop of solve_2x2 checks, from g: after k passes of its body. */
  function Spun(g: Board, h: nat, w: nat, k: nat): Option<Board> {
    Iterate(g, b => Rotate(b, h, w), k)
  }

  /** Whether row0_invariant(0) holds of a grid of the given shape. */
  ghost predicate CornerSolved(b: Board, h: nat, w: nat) {
    WellFormed(b, h, w) && h >= 1 && w >= 1 && Row0Holds(b, h, w, 0)
  }

  /** The loop of solve_2x2, started on g, never reaches row0_invariant(0). */
  ghost predicate NeverSolved(g: Board, h: nat, w: nat) {
    forall k: nat :: Spun(g, h, w, k).Some? ==> !CornerSolved(Spun(g, h, w, k).value, h, w)
  }

  /** With the blank in the corner, three passes restore the grid. */
  lemma CornerSpinReturns(g: Board, h: nat, w: nat)
    requires WellFormed(g, h, w) && h >= 2 && w >= 2 && At(g, Pos(0, 0)) == 0
    ensures Spun(g, h, w, 3) == Some(g)
  {
    var z := Pos(0, 0);
    var g1 := CornerRotateOnce(g, h, w);
    var g2 := CornerRotateOnce(g1, h, w);
    var g3 := CornerRotateOnce(g2, h, w);
    CycleThrice(g, g1, g2, g3, h, w, z);
    assert Spun(g, h, w, 1) == Some(g1);
    assert Spun(g, h, w, 2) == Some(g2);
  }

  /** One pass from a blank in the corner: the corner is found first, whatever else the grid holds. */
  lemma CornerRotateOnce(g: Board, h: nat, w: nat) returns (g': Board)
    requires WellFormed(g, h, w) && h >= 2 && w >= 2 && At(g, Pos(0, 0)) == 0
    ensures Rotate(g, h, w) == Some(g')
    ensures WellFormed(g', h, w) && At(g', Pos(0, 0)) == 0 && CycledFrom(g, h, w, Pos(0, 0), g')
  {
    assert Locate(g, h, w, 0) == Some(Pos(0, 0));
    RotationCycles(g, h, w, Pos(0, 0));
    g' := ApplyMoves(g, h, w, Pos(0, 0), "rdlu").board;
  }

  lemma {:induction false} IterateShift(g: Board, step: Board -> Option<Board>, k: nat)
    requires Iterate(g, step, 3) == Some(g)
    ensures Iterate(g, step, k + 3) == Iterate(g, step, k)
    decreases k
  {
    if k > 0 {
      IterateShift(g, step, k - 1);
    }
  }

  /** A body that brings g back after three passes only ever yields the first three grids. */
  lemma {:induction false} IterateModThree(g: Board, step: Board -> Option<Board>, k: nat)
    requires Iterate(g, step, 3) == Some(g)
    ensures Iterate(g, step, k) == Iterate(g, step, k % 3)
    decreases k
  {
    if k >= 3 {
      IterateShift(g, step, k - 3);
      IterateModThree(g, step, k - 3);
    }
  }

  /** A pass from a blank that is not in the corner never touches the corner. */
  lemma RotateKeepsCorner(b: Board, h: nat, w: nat)
    requires WellFormed(b, h, w) && h >= 1 && w >= 1 && At(b, Pos(0, 0)) != 0
    requires Rotate(b, h, w).Some?
    ensures At(Rotate(b, h, w).value, Pos(0, 0)) != 0
  {
    var z := Locate(b, h, w, 0).value;
    RotationNeedsBlock(b, h, w, z);
    RotationCycles(b, h, w, z);
  }

  /** "rdlu" succeeds only when the 2x2 block right of and below the blank is inside the grid. */
  lemma RotationNeedsBlock(g: Board, h: nat, w: nat, z: Pos)
    requires WellFormed(g, h, w) && InBounds(h, w, z) && ApplyMoves(g, h, w, z, "rdlu").Done?
    ensures BlockInside(h, w, z)
  {
    assert "rdlu"[0] == 'r' && "rdlu"[1..] == "dlu";
    assert "dlu"[0] == 'd' && "dlu"[1..] == "lu";
  }

  /** The corner holds a tile. */
  ghost predicate CornerTiled(b: Board, h: nat, w: nat) {
    WellFormed(b, h, w) && h >= 1 && w >= 1 && At(b, Pos(0, 0)) != 0
  }

  /** A property every pass keeps holds after any number of passes. */
  lemma {:induction false} IterateKeepsCorner(g: Board, h: nat, w: nat, step: Board -> Option<Board>, k: nat)
    requires CornerTiled(g, h, w)
    requires forall b :: CornerTiled(b, h, w) && step(b).Some? ==> CornerTiled(step(b).value, h, w)
    ensures Iterate(g, step, k).Some? ==> CornerTiled(Iterate(g, step, k).value, h, w)
    decreases k
  {
    if k > 0 {
      IterateKeepsCorner(g, h, w, step, k - 1);
    }
  }

  /**
   * The bound on the loop of solve_2x2: if the first three grids it checks all fail
   * row0_invariant(0), no later one passes, so the loop would run forever or fail.
   */
  lemma NeverSolvedAfterThree(g: Board, h: nat, w: nat)
    requires WellFormed(g, h, w) && h >= 2 && w >= 2
    requires forall k :: 0 <= k < 3 ==> Spun(g, h, w, k).Some? && !CornerSolved(Spun(g, h, w, k).value, h, w)
    ensures NeverSolved(g, h, w)
  {
    if At(g, Pos(0, 0)) == 0 {
      CornerSpinReturns(g, h, w);
      forall k: nat | Spun(g, h, w, k).Some? ensures !CornerSolved(Spun(g, h, w, k).value, h, w) {
        SpunModThree(g, h, w, k);
      }
    } else {
      forall k: nat | Spun(g, h, w, k).Some? ensures !CornerSolved(Spun(g, h, w, k).value, h, w) {
        SpunKeepsCorner(g, h, w, k);
      }
    }
  }

  lemma SpunModThree(g: Board, h: nat, w: nat, k: nat)
    requires Spun(g, h, w, 3) == Some(g)
    ensures Spun(g, h, w, k) == Spun(g, h, w, k % 3)
  {
    IterateModThree(g, b => Rotate(b, h, w), k);
  }

  /** From a grid whose corner holds a tile, no pass ever brings the blank there. */
  lemma SpunKeepsCorner(g: Board, h: nat, w: nat, k: nat)
    requires CornerTiled(g, h, w)
    ensures Spun(g, h, w, k).Some? ==> CornerTiled(Spun(g, h, w, k).value, h, w)
  {
    var step := b => Rotate(b, h, w);
    forall b | CornerTiled(b, h, w) && step(b).Some? ensures CornerTiled(step(b).value, h, w) {
      RotateKeepsCorner(b, h, w);
    }
    IterateKeepsCorner(g, h, w, step, k);
  }
}
