/**
 * The TwentyFortyEight class of 01-2_2048/01-2_2048.py: a grid of tiles that a move slides,
 * line by line, towards one side, adding a new tile when anything moved.
 *
 * A move reads every line that runs towards the chosen side, from its first cell on that
 * side, merges it (MergeLine.Merge) and writes it back. Moved states the result of the
 * whole move at once, from the geometry of the lines; the lemmas say that the lines of the
 * moved grid are the merged lines of the old one, and when a move changes anything.
 * The random choices of new_tile are a parameter, TileChoice.
 */
module Game2048 {
  import opened MergeLine

  type Cell = (int, int)
  type Grid = seq<seq<int>>

  datatype Direction = Up | Down | Left | Right

  /** What new_tile draws: the index into the empty cells random.choice picks, taken modulo their number, and whether random.random() drew .9 or more, which makes the tile a 4. */
  datatype TileChoice = TileChoice(pick: nat, four: bool)

  // ---------------------------------------------------------------- the grid

  predicate Shaped(g: Grid, h: nat, w: nat)
  {
    |g| == h && forall r :: 0 <= r < h ==> |g[r]| == w
  }

  predicate InGrid(h: nat, w: nat, p: Cell)
  {
    0 <= p.0 < h && 0 <= p.1 < w
  }

  predicate Tiles(g: Grid)
  {
    forall r, c :: 0 <= r < |g| && 0 <= c < |g[r]| ==> g[r][c] >= 0
  }

  /** The grid reset starts from: every cell 0. */
  function Blank(h: nat, w: nat): (g: Grid)
    ensures Shaped(g, h, w) && forall r, c :: 0 <= r < h && 0 <= c < w ==> g[r][c] == 0
  {
    seq(h, _ => seq(w, _ => 0))
  }

  /** Two grids of one shape that agree on every cell are the same grid. */
  lemma SameCells(a: Grid, b: Grid, h: nat, w: nat)
    requires Shaped(a, h, w) && Shaped(b, h, w)
    requires forall r, c :: 0 <= r < h && 0 <= c < w ==> a[r][c] == b[r][c]
    ensures a == b
  {
    forall r | 0 <= r < h
      ensures a[r] == b[r]
    {
      assert forall c :: 0 <= c < w ==> a[r][c] == b[r][c];
    }
  }

  // ---------------------------------------------------------------- the lines of a move

  /** OFFSETS: from one cell of a line to the next. */
  function Offset(d: Direction): Cell
  {
    match d
    case Up => (1, 0)
    case Down => (-1, 0)
    case Left => (0, 1)
    case Right => (0, -1)
  }

  /** How many lines a move along d reads, and how many cells each has (max_steps). */
  function Lines(h: nat, w: nat, d: Direction): nat
  {
    if d == Up || d == Down then w else h
  }

  function Steps(h: nat, w: nat, d: Direction): nat
  {
    if d == Up || d == Down then h else w
  }

  /** The first cell of line k: the k-th entry __init__ puts into the table for d. */
  function Start(h: nat, w: nat, d: Direction, k: int): Cell
  {
    match d
    case Up => (0, k)
    case Down => (h - 1, k)
    case Left => (k, 0)
    case Right => (k, w - 1)
  }

  /** The direction table built by __init__. */
  function DirectionTable(h: nat, w: nat): map<Direction, seq<Cell>>
  {
    map[Up := seq(w, k => Start(h, w, Up, k)), Down := seq(w, k => Start(h, w, Down, k)),
        Left := seq(h, k => Start(h, w, Left, k)), Right := seq(h, k => Start(h, w, Right, k))]
  }

  /** Cell number s of line k. */
  function Walk(h: nat, w: nat, d: Direction, k: int, s: int): Cell
  {
    match d
    case Up => (s, k)
    case Down => (h - 1 - s, k)
    case Left => (k, s)
    case Right => (k, w - 1 - s)
  }

  /** start + steps * delta, counted out one step at a time. */
  function Along(start: int, steps: nat, delta: int): int
  {
    if steps == 0 then start else Along(start, steps - 1, delta) + delta
  }

  lemma {:induction false} AlongScales(start: int, steps: nat, delta: int)
    ensures Along(start, steps, delta) == start + steps * delta
  {
    if steps > 0 {
      AlongScales(start, steps - 1, delta);
    }
  }

  /** move computes cell s of line k as the start of the line plus s times the offset of d: that is Walk. */
  lemma {:induction false} OffsetWalk(h: nat, w: nat, d: Direction, k: int, s: nat)
    ensures Walk(h, w, d, k, s) == (Along(Start(h, w, d, k).0, s, Offset(d).0), Along(Start(h, w, d, k).1, s, Offset(d).1))
  {
    if s > 0 {
      OffsetWalk(h, w, d, k, s - 1);
    }
  }

  /** Which line of a move along d a cell lies on, and at which step. */
  function LineOf(h: nat, w: nat, d: Direction, p: Cell): int
  {
    if d == Up || d == Down then p.1 else p.0
  }

  function StepOf(h: nat, w: nat, d: Direction, p: Cell): int
  {
    match d
    case Up => p.0
    case Down => h - 1 - p.0
    case Left => p.1
    case Right => w - 1 - p.1
  }

  /** Every step of every line of the table stays on the grid, on its own line and step. */
  lemma WalkInGrid(h: nat, w: nat, d: Direction, k: int, s: int)
    requires 0 <= k < Lines(h, w, d) && 0 <= s < Steps(h, w, d)
    ensures InGrid(h, w, Walk(h, w, d, k, s))
    ensures LineOf(h, w, d, Walk(h, w, d, k, s)) == k && StepOf(h, w, d, Walk(h, w, d, k, s)) == s
  {
  }

  /** Every cell of the grid is on one line of the table, at one step: the lines of a move partition the grid. */
  lemma CellOnLine(h: nat, w: nat, d: Direction, p: Cell)
    requires InGrid(h, w, p)
    ensures 0 <= LineOf(h, w, d, p) < Lines(h, w, d) && 0 <= StepOf(h, w, d, p) < Steps(h, w, d)
    ensures Walk(h, w, d, LineOf(h, w, d, p), StepOf(h, w, d, p)) == p
  {
  }

  /** The tile in cell p; 0 off the grid, which no walk of the table reaches (WalkInGrid). */
  function TileAt(g: Grid, p: Cell): int
  {
    if 0 <= p.0 < |g| && 0 <= p.1 < |g[p.0]| then g[p.0][p.1] else 0
  }

  /** The tiles of line k, in the order move reads them. */
  function Line(g: Grid, h: nat, w: nat, d: Direction, k: int): (line: seq<int>)
    ensures |line| == Steps(h, w, d)
  {
    seq(Steps(h, w, d), s => TileAt(g, Walk(h, w, d, k, s)))
  }

  lemma LineTiles(g: Grid, h: nat, w: nat, d: Direction, k: int)
    requires Shaped(g, h, w) && Tiles(g)
    ensures NonNegative(Line(g, h, w, d, k)) && |Slid(Line(g, h, w, d, k))| == Steps(h, w, d)
  {
    SlidLength(Line(g, h, w, d, k));
  }

  /** The tile a move along d leaves in cell p: its step of the merged line it lies on. */
  function MovedTile(g: Grid, h: nat, w: nat, d: Direction, p: Cell): int
  {
    var merged := Slid(Line(g, h, w, d, LineOf(h, w, d, p)));
    var s := StepOf(h, w, d, p);
    if 0 <= s < |merged| then merged[s] else 0
  }

  /** The grid after the lines of a move along d are merged, before any new tile. */
  function Moved(g: Grid, h: nat, w: nat, d: Direction): (m: Grid)
    ensures Shaped(m, h, w)
  {
    seq(h, r => MovedRow(g, h, w, d, r))
  }

  function MovedRow(g: Grid, h: nat, w: nat, d: Direction, r: int): (row: seq<int>)
    ensures |row| == w
  {
    seq(w, c => MovedTile(g, h, w, d, (r, c)))
  }

  /** Whether merging line k changes it. */
  predicate LineChanged(g: Grid, h: nat, w: nat, d: Direction, k: int)
  {
    Slid(Line(g, h, w, d, k)) != Line(g, h, w, d, k)
  }

  /** Whether merging one of the first k lines changes it. */
  function AnyLineChanged(g: Grid, h: nat, w: nat, d: Direction, k: nat): bool
  {
    k > 0 && (AnyLineChanged(g, h, w, d, k - 1) || LineChanged(g, h, w, d, k - 1))
  }

  // ---------------------------------------------------------------- new tiles

  /** The empty cells of row r before column n, left to right. */
  function EmptyInRow(g: Grid, r: nat, n: nat): (cells: seq<Cell>)
    requires r < |g| && n <= |g[r]|
    ensures forall i :: 0 <= i < |cells| ==> cells[i].0 == r && 0 <= cells[i].1 < n && g[r][cells[i].1] == 0
  {
    if n == 0 then [] else EmptyInRow(g, r, n - 1) + (if g[r][n - 1] == 0 then [(r, n - 1)] else [])
  }

  /** One more column of row r: the list get_empty builds grows by that cell when it is empty. */
  lemma EmptyInRowNext(g: Grid, r: nat, n: nat, done: seq<Cell>)
    requires r < |g| && n < |g[r]|
    ensures done + EmptyInRow(g, r, n + 1) == done + EmptyInRow(g, r, n) + (if g[r][n] == 0 then [(r, n)] else [])
  {
  }

  /** The empty cells of the rows before n, in the order get_empty lists them. */
  function EmptyInRows(g: Grid, n: nat): (cells: seq<Cell>)
    requires n <= |g|
    ensures forall i :: 0 <= i < |cells| ==>
      0 <= cells[i].0 < n && 0 <= cells[i].1 < |g[cells[i].0]| && g[cells[i].0][cells[i].1] == 0
  {
    if n == 0 then [] else EmptyInRows(g, n - 1) + EmptyInRow(g, n - 1, |g[n - 1]|)
  }

  /** get_empty: every empty cell, row by row. */
  function EmptyCells(g: Grid): (cells: seq<Cell>)
    ensures forall i :: 0 <= i < |cells| ==>
      0 <= cells[i].0 < |g| && 0 <= cells[i].1 < |g[cells[i].0]| && g[cells[i].0][cells[i].1] == 0
  {
    EmptyInRows(g, |g|)
  }

  /** The value new_tile writes. */
  function NewValue(choice: TileChoice): int
  {
    if choice.four then 4 else 2
  }

  /** The grid after new_tile: the chosen empty cell gets a 2 or a 4; a full grid stays as it is. */
  function WithNewTile(g: Grid, choice: TileChoice): Grid
  {
    var cells := EmptyCells(g);
    if cells == [] then g
    else
      var p := cells[choice.pick % |cells|];
      g[p.0 := g[p.0][p.1 := NewValue(choice)]]
  }

  // ---------------------------------------------------------------- the game

  class TwentyFortyEight {
    const height: nat
    const width: nat
    const directions: map<Direction, seq<Cell>>
    var grid: Grid
    var empty: seq<Cell>

    /** The grid has the board's shape. */
    ghost predicate Valid()
      reads this
    {
      Shaped(grid, height, width)
    }

    /** The direction table __init__ builds: the start cells of the lines for each direction. */
    ghost predicate TableBuilt() {
      directions == DirectionTable(height, width)
    }

    /** __init__: the direction table, then reset. */
    constructor (gridHeight: nat, gridWidth: nat, first: TileChoice, second: TileChoice)
      ensures height == gridHeight && width == gridWidth && Valid() && TableBuilt()
      ensures grid == WithNewTile(WithNewTile(Blank(gridHeight, gridWidth), first), second)
      ensures empty == EmptyCells(WithNewTile(Blank(gridHeight, gridWidth), first))
    {
      height := gridHeight;
      width := gridWidth;
      var up: seq<Cell>, down: seq<Cell>, left: seq<Cell>, right: seq<Cell> := [], [], [], [];
      for col := 0 to gridWidth
        invariant up == seq(col, k => Start(gridHeight, gridWidth, Up, k))
        invariant down == seq(col, k => Start(gridHeight, gridWidth, Down, k))
      {
        up := up + [(0, col)];
        down := down + [(gridHeight - 1, col)];
      }
      for row := 0 to gridHeight
        invariant left == seq(row, k => Start(gridHeight, gridWidth, Left, k))
        invariant right == seq(row, k => Start(gridHeight, gridWidth, Right, k))
      {
        left := left + [(row, 0)];
        right := right + [(row, gridWidth - 1)];
      }
      directions := map[Up := up, Down := down, Left := left, Right := right];
      new;
      Reset(first, second);
    }

    /** reset: a blank grid with two new tiles. */
    method Reset(first: TileChoice, second: TileChoice)
      requires directions == DirectionTable(height, width)
      modifies this`grid, this`empty
      ensures Valid()
      ensures grid == WithNewTile(WithNewTile(Blank(height, width), first), second)
      ensures empty == EmptyCells(WithNewTile(Blank(height, width), first))
    {
      grid := Blank(height, width);
      var _ := GetEmpty();
      NewTile(first);
      NewTile(second);
    }

    /**
     * move: each line of the table for the direction read, merged and written back; a new
     * tile when some merged line differs from the line read.
     */
    method Move(direction: Direction, choice: TileChoice)
      requires Valid() && TableBuilt() && Tiles(grid)
      modifies this`grid, this`empty
      ensures Valid()
      ensures var moved := Moved(old(grid), height, width, direction);
        if moved != old(grid) then grid == WithNewTile(moved, choice) && empty == EmptyCells(moved)
        else grid == old(grid) && empty == old(empty)
    {
      ghost var g0 := grid;
      var changed := false;
      TableLines(height, width, direction);
      for k := 0 to |directions[direction]|
        invariant Valid() && empty == old(empty)
        invariant MovedBefore(grid, g0, height, width, direction, k)
        invariant changed == AnyLineChanged(g0, height, width, direction, k)
      {
        var lineChanged := MoveLine(direction, k, g0);
        if lineChanged {
          changed := true;
        }
      }
      MoveOutcome(grid, g0, height, width, direction, changed);
      if changed {
        ghost var moved := grid;
        NewTile(choice);
        assert grid == WithNewTile(moved, choice) && empty == EmptyCells(moved);
      }
    }

    /** The body of move's loop for line k: read, merge, note whether it changed, write back. */
    method MoveLine(direction: Direction, k: nat, ghost g0: Grid) returns (lineChanged: bool)
      requires Valid() && TableBuilt() && Shaped(g0, height, width) && Tiles(g0) && k < Lines(height, width, direction)
      requires MovedBefore(grid, g0, height, width, direction, k)
      modifies this`grid
      ensures Valid() && MovedBefore(grid, g0, height, width, direction, k + 1)
      ensures lineChanged == LineChanged(g0, height, width, direction, k)
    {
      UnmovedLine(grid, g0, height, width, direction, k);
      var toMerge := ReadLine(direction, k);
      var merged := Merge(toMerge);
      lineChanged := merged != toMerge;
      LineTiles(g0, height, width, direction, k);
      ghost var before := grid;
      WriteLine(direction, k, merged);
      LineDone(before, grid, g0, height, width, direction, k);
    }

    /** The first loop of move's body: the tiles of line k, read with get_tile from its start along the offset. */
    method ReadLine(direction: Direction, k: nat) returns (toMerge: seq<int>)
      requires Valid() && TableBuilt() && k < Lines(height, width, direction)
      ensures toMerge == Line(grid, height, width, direction, k)
    {
      var maxSteps;
      if direction == Up || direction == Down {
        maxSteps := height;
      } else {
        maxSteps := width;
      }
      TableStart(height, width, direction, k);
      var initial := directions[direction][k];
      ghost var line := Line(grid, height, width, direction, k);
      toMerge := [];
      for step := 0 to maxSteps
        invariant toMerge == line[..step]
      {
        var row := Along(initial.0, step, Offset(direction).0);
        var col := Along(initial.1, step, Offset(direction).1);
        OffsetWalk(height, width, direction, k, step);
        WalkInGrid(height, width, direction, k, step);
        var tile := GetTile(row, col);
        toMerge := toMerge + [tile];
        assert line[..step + 1] == line[..step] + [line[step]];
      }
    }

    /** The second loop of move's body: merged written with set_tile over line k, every other cell left. */
    method WriteLine(direction: Direction, k: nat, merged: seq<int>)
      requires Valid() && TableBuilt() && k < Lines(height, width, direction) && |merged| == Steps(height, width, direction)
      modifies this`grid
      ensures Valid() && Written(grid, old(grid), height, width, direction, k, merged, |merged|)
    {
      var maxSteps;
      if direction == Up || direction == Down {
        maxSteps := height;
      } else {
        maxSteps := width;
      }
      TableStart(height, width, direction, k);
      var initial := directions[direction][k];
      for step := 0 to maxSteps
        invariant Valid() && Written(grid, old(grid), height, width, direction, k, merged, step)
      {
        var row := Along(initial.0, step, Offset(direction).0);
        var col := Along(initial.1, step, Offset(direction).1);
        OffsetWalk(height, width, direction, k, step);
        WalkInGrid(height, width, direction, k, step);
        ghost var before := grid;
        SetTile(row, col, merged[step]);
        WriteNext(before, grid, old(grid), height, width, direction, k, merged, step, row, col);
      }
    }

    /** new_tile: get_empty refreshes the empty cells, then one of them, if any, gets a 2 or a 4. */
    method NewTile(choice: TileChoice)
      requires Valid()
      modifies this`grid, this`empty
      ensures Valid()
      ensures grid == WithNewTile(old(grid), choice) && empty == EmptyCells(old(grid))
    {
      var _ := GetEmpty();
      if |empty| > 0 {
        var tileLoc := empty[choice.pick % |empty|];
        var tileValue;
        if choice.four {
          tileValue := 4;
        } else {
          tileValue := 2;
        }
        ghost var before := grid;
        SetTile(tileLoc.0, tileLoc.1, tileValue);
        SameCells(grid, before[tileLoc.0 := before[tileLoc.0][tileLoc.1 := tileValue]], height, width);
      }
    }

    /** set_tile. */
    method SetTile(row: int, col: int, value: int)
      requires Valid() && InGrid(height, width, (row, col))
      modifies this`grid
      ensures Valid() && empty == old(empty)
      ensures grid[row][col] == value
      ensures forall r, c :: InGrid(height, width, (r, c)) && (r, c) != (row, col) ==> grid[r][c] == old(grid)[r][c]
    {
      grid := grid[row := grid[row][col := value]];
    }

    /** get_tile. */
    method GetTile(row: int, col: int) returns (value: int)
      requires Valid() && InGrid(height, width, (row, col))
      ensures value == grid[row][col]
    {
      value := grid[row][col];
    }

    /** get_empty: the empty cells row by row, kept in the empty field and returned. */
    method GetEmpty() returns (cells: seq<Cell>)
      requires Valid()
      modifies this`empty
      ensures Valid() && grid == old(grid)
      ensures empty == EmptyCells(grid) && cells == empty
    {
      empty := [];
      for row := 0 to |grid|
        invariant Valid() && grid == old(grid)
        invariant empty == EmptyInRows(grid, row)
      {
        for col := 0 to |grid[row]|
          invariant Valid() && grid == old(grid)
          invariant empty == EmptyInRows(grid, row) + EmptyInRow(grid, row, col)
        {
          EmptyInRowNext(grid, row, col, EmptyInRows(grid, row));
          if grid[row][col] == 0 {
            empty := empty + [(row, col)];
          }
        }
      }
      cells := empty;
    }
  }

  // ---------------------------------------------------------------- move, line by line

  /** The grid part way through a move: lines before k moved, every other cell as it was. */
  ghost predicate MovedBefore(grid: Grid, g0: Grid, h: nat, w: nat, d: Direction, k: int)
    requires Shaped(g0, h, w) && Tiles(g0)
  {
    && Shaped(grid, h, w)
    && forall r, c :: 0 <= r < h && 0 <= c < w ==>
      grid[r][c] == if LineOf(h, w, d, (r, c)) < k then MovedTile(g0, h, w, d, (r, c)) else g0[r][c]
  }

  /** Line k has not been written yet when move reads it. */
  lemma UnmovedLine(grid: Grid, g0: Grid, h: nat, w: nat, d: Direction, k: int)
    requires Shaped(g0, h, w) && Tiles(g0) && MovedBefore(grid, g0, h, w, d, k)
    requires 0 <= k < Lines(h, w, d)
    ensures Line(grid, h, w, d, k) == Line(g0, h, w, d, k)
  {
    forall s | 0 <= s < Steps(h, w, d)
      ensures Line(grid, h, w, d, k)[s] == Line(g0, h, w, d, k)[s]
    {
      WalkInGrid(h, w, d, k, s);
    }
  }

  /** The table __init__ builds has one entry per line of d. */
  lemma TableLines(h: nat, w: nat, d: Direction)
    ensures d in DirectionTable(h, w) && |DirectionTable(h, w)[d]| == Lines(h, w, d)
  {
  }

  /** The table __init__ builds starts line k of d at Start(h, w, d, k). */
  lemma TableStart(h: nat, w: nat, d: Direction, k: int)
    requires 0 <= k < Lines(h, w, d)
    ensures |DirectionTable(h, w)[d]| == Lines(h, w, d) && DirectionTable(h, w)[d][k] == Start(h, w, d, k)
  {
  }

  /** A grid part way through writing line k of g: its first upto steps hold merged, every other cell as in g. */
  ghost predicate Written(grid: Grid, g: Grid, h: nat, w: nat, d: Direction, k: int, merged: seq<int>, upto: nat)
    requires Shaped(g, h, w) && upto <= |merged|
  {
    && Shaped(grid, h, w)
    && forall r, c :: 0 <= r < h && 0 <= c < w ==>
      grid[r][c] == if LineOf(h, w, d, (r, c)) == k && 0 <= StepOf(h, w, d, (r, c)) < upto
        then merged[StepOf(h, w, d, (r, c))] else g[r][c]
  }

  /** Writing step s of line k, and no other cell, extends what is written by one step. */
  lemma WriteNext(before: Grid, after: Grid, g: Grid, h: nat, w: nat, d: Direction, k: int, merged: seq<int>, s: nat, row: int, col: int)
    requires 0 <= k < Lines(h, w, d) && s < Steps(h, w, d) && s < |merged| && (row, col) == Walk(h, w, d, k, s)
    requires Shaped(g, h, w) && Written(before, g, h, w, d, k, merged, s) && Shaped(after, h, w)
    requires InGrid(h, w, (row, col)) && after[row][col] == merged[s]
    requires forall r, c :: InGrid(h, w, (r, c)) && (r, c) != (row, col) ==> after[r][c] == before[r][c]
    ensures Written(after, g, h, w, d, k, merged, s + 1)
  {
    forall r, c | 0 <= r < h && 0 <= c < w && (r, c) != (row, col)
      ensures LineOf(h, w, d, (r, c)) != k || StepOf(h, w, d, (r, c)) != s
    {
      CellOnLine(h, w, d, (r, c));
    }
  }

  lemma LineDone(before: Grid, after: Grid, g0: Grid, h: nat, w: nat, d: Direction, k: int)
    requires Shaped(g0, h, w) && Tiles(g0) && 0 <= k < Lines(h, w, d)
    requires |Slid(Line(g0, h, w, d, k))| == Steps(h, w, d)
    requires MovedBefore(before, g0, h, w, d, k)
    requires Written(after, before, h, w, d, k, Slid(Line(g0, h, w, d, k)), Steps(h, w, d))
    ensures MovedBefore(after, g0, h, w, d, k + 1)
  {
    forall r, c | 0 <= r < h && 0 <= c < w
      ensures 0 <= StepOf(h, w, d, (r, c)) < Steps(h, w, d)
    {
      CellOnLine(h, w, d, (r, c));
    }
  }

  lemma AllLinesMoved(grid: Grid, g0: Grid, h: nat, w: nat, d: Direction)
    requires Shaped(g0, h, w) && Tiles(g0)
    requires MovedBefore(grid, g0, h, w, d, Lines(h, w, d))
    ensures grid == Moved(g0, h, w, d)
  {
    forall r, c | 0 <= r < h && 0 <= c < w
      ensures grid[r][c] == Moved(g0, h, w, d)[r][c]
    {
      CellOnLine(h, w, d, (r, c));
    }
    SameCells(grid, Moved(g0, h, w, d), h, w);
  }

  /** After the last line, the grid is the moved grid, and changed says whether it differs from the old one. */
  lemma MoveOutcome(grid: Grid, g0: Grid, h: nat, w: nat, d: Direction, changed: bool)
    requires Shaped(g0, h, w) && Tiles(g0)
    requires MovedBefore(grid, g0, h, w, d, Lines(h, w, d))
    requires changed == AnyLineChanged(g0, h, w, d, Lines(h, w, d))
    ensures grid == Moved(g0, h, w, d) && (changed <==> grid != g0)
  {
    AllLinesMoved(grid, g0, h, w, d);
    MoveChanges(g0, h, w, d);
  }

  // ---------------------------------------------------------------- what move promises

  /** Each line of the moved grid is the merged line of the old one. */
  lemma MovedLines(g: Grid, h: nat, w: nat, d: Direction, k: int)
    requires Shaped(g, h, w) && Tiles(g) && 0 <= k < Lines(h, w, d)
    ensures Line(Moved(g, h, w, d), h, w, d, k) == Slid(Line(g, h, w, d, k))
  {
    LineTiles(g, h, w, d, k);
    forall s | 0 <= s < Steps(h, w, d)
      ensures Line(Moved(g, h, w, d), h, w, d, k)[s] == Slid(Line(g, h, w, d, k))[s]
    {
      WalkInGrid(h, w, d, k, s);
    }
  }

  /** Moving leaves only tiles: no cell becomes negative. */
  lemma MovedTiles(g: Grid, h: nat, w: nat, d: Direction)
    requires Shaped(g, h, w) && Tiles(g)
    ensures Tiles(Moved(g, h, w, d))
  {
    forall r, c | 0 <= r < h && 0 <= c < w
      ensures Moved(g, h, w, d)[r][c] >= 0
    {
      CellOnLine(h, w, d, (r, c));
      var k := LineOf(h, w, d, (r, c));
      LineTiles(g, h, w, d, k);
      SlidTilesFirst(Line(g, h, w, d, k));
    }
  }

  /** A line that merging changes makes the moved grid differ from the old one. */
  lemma ChangedLineChangesGrid(g: Grid, h: nat, w: nat, d: Direction, j: int)
    requires Shaped(g, h, w) && Tiles(g) && 0 <= j < Lines(h, w, d) && LineChanged(g, h, w, d, j)
    ensures Moved(g, h, w, d) != g
  {
    MovedLines(g, h, w, d, j);
  }

  lemma {:induction false} ChangedLinesChangeGrid(g: Grid, h: nat, w: nat, d: Direction, k: nat)
    requires Shaped(g, h, w) && Tiles(g) && k <= Lines(h, w, d) && AnyLineChanged(g, h, w, d, k)
    ensures Moved(g, h, w, d) != g
  {
    if LineChanged(g, h, w, d, k - 1) {
      ChangedLineChangesGrid(g, h, w, d, k - 1);
    } else {
      ChangedLinesChangeGrid(g, h, w, d, k - 1);
    }
  }

  /** A cell on a line that merging leaves as it is keeps its tile. */
  lemma UnchangedCell(g: Grid, h: nat, w: nat, d: Direction, p: Cell)
    requires Shaped(g, h, w) && InGrid(h, w, p) && !LineChanged(g, h, w, d, LineOf(h, w, d, p))
    ensures Moved(g, h, w, d)[p.0][p.1] == g[p.0][p.1]
  {
    CellOnLine(h, w, d, p);
    var line := Line(g, h, w, d, LineOf(h, w, d, p));
    var s := StepOf(h, w, d, p);
    assert Moved(g, h, w, d)[p.0][p.1] == MovedTile(g, h, w, d, p);
    assert MovedTile(g, h, w, d, p) == line[s];
    assert line[s] == TileAt(g, Walk(h, w, d, LineOf(h, w, d, p), s));
  }

  /** Where no line before k changes, the cells of those lines keep their tiles. */
  lemma {:induction false} UnchangedLinesKeepCells(g: Grid, h: nat, w: nat, d: Direction, k: nat)
    requires Shaped(g, h, w) && Tiles(g) && k <= Lines(h, w, d) && !AnyLineChanged(g, h, w, d, k)
    ensures forall r, c :: 0 <= r < h && 0 <= c < w && LineOf(h, w, d, (r, c)) < k ==> Moved(g, h, w, d)[r][c] == g[r][c]
  {
    if k > 0 {
      UnchangedLinesKeepCells(g, h, w, d, k - 1);
      forall r, c | 0 <= r < h && 0 <= c < w && LineOf(h, w, d, (r, c)) == k - 1
        ensures Moved(g, h, w, d)[r][c] == g[r][c]
      {
        UnchangedCell(g, h, w, d, (r, c));
      }
    }
  }

  /** A move changes the grid exactly when merging changes one of its lines: move's changed flag. */
  lemma MoveChanges(g: Grid, h: nat, w: nat, d: Direction)
    requires Shaped(g, h, w) && Tiles(g)
    ensures Moved(g, h, w, d) != g <==> AnyLineChanged(g, h, w, d, Lines(h, w, d))
  {
    if AnyLineChanged(g, h, w, d, Lines(h, w, d)) {
      ChangedLinesChangeGrid(g, h, w, d, Lines(h, w, d));
    } else {
      UnchangedLinesKeepCells(g, h, w, d, Lines(h, w, d));
      forall r, c | 0 <= r < h && 0 <= c < w
        ensures Moved(g, h, w, d)[r][c] == g[r][c]
      {
        CellOnLine(h, w, d, (r, c));
      }
      SameCells(Moved(g, h, w, d), g, h, w);
    }
  }

  // ---------------------------------------------------------------- what get_empty and new_tile promise

  lemma {:induction false} EmptyInRowComplete(g: Grid, r: nat, n: nat, c: int)
    requires r < |g| && n <= |g[r]| && 0 <= c < n && g[r][c] == 0
    ensures (r, c) in EmptyInRow(g, r, n)
  {
    if c < n - 1 {
      EmptyInRowComplete(g, r, n - 1, c);
    }
  }

  lemma {:induction false} EmptyInRowsComplete(g: Grid, n: nat, p: Cell)
    requires n <= |g| && 0 <= p.0 < n && 0 <= p.1 < |g[p.0]| && g[p.0][p.1] == 0
    ensures p in EmptyInRows(g, n)
  {
    if p.0 < n - 1 {
      EmptyInRowsComplete(g, n - 1, p);
    } else {
      EmptyInRowComplete(g, n - 1, |g[n - 1]|, p.1);
    }
  }

  /** get_empty lists a cell exactly when it is on the grid and holds 0. */
  lemma EmptyCellsMeaning(g: Grid, p: Cell)
    ensures p in EmptyCells(g) <==> 0 <= p.0 < |g| && 0 <= p.1 < |g[p.0]| && g[p.0][p.1] == 0
  {
    if 0 <= p.0 < |g| && 0 <= p.1 < |g[p.0]| && g[p.0][p.1] == 0 {
      EmptyInRowsComplete(g, |g|, p);
    }
  }

  predicate RowMajorBefore(p: Cell, q: Cell)
  {
    p.0 < q.0 || (p.0 == q.0 && p.1 < q.1)
  }

  predicate RowMajor(cells: seq<Cell>)
  {
    forall i, j :: 0 <= i < j < |cells| ==> RowMajorBefore(cells[i], cells[j])
  }

  lemma {:induction false} EmptyInRowOrdered(g: Grid, r: nat, n: nat)
    requires r < |g| && n <= |g[r]|
    ensures RowMajor(EmptyInRow(g, r, n))
  {
    if n > 0 {
      EmptyInRowOrdered(g, r, n - 1);
    }
  }

  lemma {:induction false} EmptyInRowsOrdered(g: Grid, n: nat)
    requires n <= |g|
    ensures RowMajor(EmptyInRows(g, n))
  {
    if n > 0 {
      EmptyInRowsOrdered(g, n - 1);
      EmptyInRowOrdered(g, n - 1, |g[n - 1]|);
    }
  }

  /** get_empty lists the cells row by row, left to right, so none twice. */
  lemma EmptyCellsOrdered(g: Grid)
    ensures RowMajor(EmptyCells(g))
  {
    EmptyInRowsOrdered(g, |g|);
  }

  /** new_tile turns one empty cell into a 2 or a 4 and leaves every other cell; on a full grid it does nothing. */
  lemma NewTileMeaning(g: Grid, h: nat, w: nat, choice: TileChoice)
    requires Shaped(g, h, w)
    ensures Shaped(WithNewTile(g, choice), h, w)
    ensures EmptyCells(g) == [] ==> WithNewTile(g, choice) == g
    ensures EmptyCells(g) != [] ==> exists p :: (
      && InGrid(h, w, p) && g[p.0][p.1] == 0
      && WithNewTile(g, choice)[p.0][p.1] in {2, 4}
      && forall r, c :: InGrid(h, w, (r, c)) && (r, c) != p ==> WithNewTile(g, choice)[r][c] == g[r][c])
  {
    var cells := EmptyCells(g);
    if cells != [] {
      var p := cells[choice.pick % |cells|];
      assert InGrid(h, w, p) && g[p.0][p.1] == 0;
    }
  }

  /** get_empty finds nothing exactly when no cell of the grid is 0: then new_tile adds nothing. */
  lemma NoEmptyCell(g: Grid, h: nat, w: nat)
    requires Shaped(g, h, w)
    ensures EmptyCells(g) == [] <==> forall r, c :: 0 <= r < h && 0 <= c < w ==> g[r][c] != 0
  {
    if EmptyCells(g) != [] {
      var p := EmptyCells(g)[0];
      assert InGrid(h, w, p) && g[p.0][p.1] == 0;
    } else {
      forall r, c | 0 <= r < h && 0 <= c < w
        ensures g[r][c] != 0
      {
        EmptyCellsMeaning(g, (r, c));
      }
    }
  }
}
