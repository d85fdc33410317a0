/** The tic-tac-toe engine of `tictactoe.py`: an `n` by `n` grid of cells
    whose positions 1..n*n are numbered row by row, marks set through
    bounds and occupancy checks, the row/column/diagonal win scan, the
    score it shares with `minimax`, and the exhaustive `minimax` search.
    The board is a value here: where the source writes a cell of
    `self.board` and later restores it, the model passes the changed
    board down and keeps the old one. */
module TicTacToe {
  import opened Common

  /** `Cell`: `EMPTY`, `COMPUTER`, `PLAYER`. */
  datatype Cell = Empty | Computer | Player

  /** `mark.name`, the text a `Move` records. */
  function CellName(c: Cell): (r: string) {
    match c
    case Empty => "EMPTY"
    case Computer => "COMPUTER"
    case Player => "PLAYER"
  }

  /** A `(row, col)` tuple, both counted from 0. */
  type Coord = (int, int)

  /** `Move(pos, marker)`: a position and the name of the mark set there. */
  datatype Move = Move(pos: int, marker: string)

  /** The state the methods share: `grid_size`, `board` (a list of rows) and
      the recorded `moves`. */
  datatype Game = Game(n: nat, board: seq<seq<Cell>>, moves: seq<Move>)

  /** The board is `n` rows of `n` cells, as `create_board` makes it and
      every operation keeps it. */
  predicate Square(g: Game) {
    |g.board| == g.n && forall r :: 0 <= r < |g.board| ==> |g.board[r]| == g.n
  }

  /** `(row, col)` is a cell of the grid. */
  predicate OnGrid(n: int, c: Coord) {
    0 <= c.0 < n && 0 <= c.1 < n
  }

  // ---------------------------------------------------------------------
  // Positions and coordinates

  /** Multiplying by a non-negative factor keeps the order. */
  lemma MulMonotone(a: int, b: int, n: int)
    requires a <= b && n >= 0
    ensures a * n <= b * n
  {
    assert b * n - a * n == (b - a) * n;
  }

  /** `a == q * n + r` with `0 <= r < n` fixes the quotient and remainder. */
  lemma DivModUnique(a: int, n: int, q: int, r: int)
    requires n > 0 && 0 <= r < n && a == q * n + r
    ensures a / n == q && a % n == r
  {
    var d := q - a / n;
    assert d * n == a % n - r;
    if d > 0 {
      MulMonotone(1, d, n);
    } else if d < 0 {
      MulMonotone(d, -1, n);
    }
  }

  /** One entry of `position_to_coordinates`, as the constructor's loop
      computes it: `floor == actual` (the float division `pos / grid_size`
      equal to the floor division) holds exactly when `grid_size` divides
      `pos`. It is the row-major numbering from 1. */
  function PositionToCoordinates(n: nat, pos: int): (c: Coord)
    requires 1 <= pos <= n * n
    ensures n > 0 && c == ((pos - 1) / n, (pos - 1) % n)
  {
    var floor := pos / n;
    var row := if pos % n == 0 then floor - 1 else floor;
    var rem := pos % n;
    var col := if rem == 0 then n - 1 else rem - 1;
    assert pos == floor * n + rem;
    DivModUnique(pos - 1, n, row, col);
    (row, col)
  }

  /** `position_to_coordinates[pos]`: positions outside 1..n*n are not keys. */
  function PositionLookup(n: nat, pos: int): (r: Result<Coord>)
    ensures r.Raise? ==> r.exc == KeyError
    ensures r.Ok? <==> 1 <= pos <= n * n
  {
    if 1 <= pos <= n * n then Ok(PositionToCoordinates(n, pos)) else Raise(KeyError)
  }

  /** `coordinates_to_position[(row, col)]`, the dictionary inverted, in
      closed form; coordinates off the grid are not keys. */
  function CoordinatesToPosition(n: nat, c: Coord): (r: Result<int>)
    ensures r.Raise? ==> r.exc == KeyError
    ensures r.Ok? <==> OnGrid(n, c)
  {
    if OnGrid(n, c) then Ok(c.0 * n + c.1 + 1) else Raise(KeyError)
  }

  /** Every position is a key of the inverted dictionary and maps back to
      itself. */
  lemma PositionRoundTrip(n: nat, pos: int)
    requires 1 <= pos <= n * n
    ensures OnGrid(n, PositionToCoordinates(n, pos))
    ensures CoordinatesToPosition(n, PositionToCoordinates(n, pos)) == Ok(pos)
  {
    var c := PositionToCoordinates(n, pos);
    assert pos - 1 == c.0 * n + c.1;
  }

  /** Every cell of the grid has exactly one position, which maps back to
      that cell: the two dictionaries are inverse bijections. */
  lemma CoordinatesRoundTrip(n: nat, c: Coord)
    requires OnGrid(n, c)
    ensures var pos := c.0 * n + c.1 + 1;
      && CoordinatesToPosition(n, c) == Ok(pos)
      && 1 <= pos <= n * n
      && PositionLookup(n, pos) == Ok(c)
  {
    var pos := c.0 * n + c.1 + 1;
    MulMonotone(c.0, n - 1, n);
    assert (n - 1) * n == n * n - n;
    MulMonotone(0, c.0, n);
    DivModUnique(pos - 1, n, c.0, c.1);
  }

  // ---------------------------------------------------------------------
  // The board

  /** `create_board`: `n` rows of `n` empty cells. */
  function CreateBoard(n: nat): (b: seq<seq<Cell>>)
    ensures Square(Game(n, b, []))
    ensures forall r, c :: 0 <= r < n && 0 <= c < n ==> b[r][c] == Empty
  {
    seq(n, _ => seq(n, _ => Empty))
  }

  /** The cell at `(row, col)`. */
  function At(b: seq<seq<Cell>>, c: Coord): (r: Cell)
    requires 0 <= c.0 < |b| && 0 <= c.1 < |b[c.0]|
  {
    b[c.0][c.1]
  }

  /** `board[row][col] = mark`. */
  function Put(b: seq<seq<Cell>>, c: Coord, v: Cell): (r: seq<seq<Cell>>)
    requires 0 <= c.0 < |b| && 0 <= c.1 < |b[c.0]|
  {
    b[c.0 := b[c.0][c.1 := v]]
  }

  /** Writing a cell changes that cell only and keeps the shape. */
  lemma PutFrame(g: Game, c: Coord, v: Cell)
    requires Square(g) && OnGrid(g.n, c)
    ensures Square(g.(board := Put(g.board, c, v)))
    ensures forall d :: OnGrid(g.n, d) ==>
      At(Put(g.board, c, v), d) == if d == c then v else At(g.board, d)
  {
  }

  /** Writing back the old value restores the board: the undo step of
      `minimax` leaves the board as it found it. */
  lemma PutRestores(b: seq<seq<Cell>>, c: Coord, v: Cell)
    requires 0 <= c.0 < |b| && 0 <= c.1 < |b[c.0]|
    ensures Put(Put(b, c, v), c, At(b, c)) == b
  {
    assert b[c.0][c.1 := v][c.1 := b[c.0][c.1]] == b[c.0];
  }

  /** `get_board_row(row_number)`, rows counted from 1. */
  function GetBoardRow(g: Game, k: int): (r: Result<seq<Cell>>)
    requires Square(g)
    ensures r.Raise? <==> !(1 <= k <= g.n)
    ensures r.Raise? ==> r.exc == GameplayError
    ensures r.Ok? ==> |r.value| == g.n
  {
    if !(1 <= k <= g.n) then Raise(GameplayError) else Ok(g.board[k - 1])
  }

  /** `get_board_column(col_number)`, columns counted from 1. */
  function GetBoardColumn(g: Game, k: int): (r: Result<seq<Cell>>)
    requires Square(g)
    ensures r.Raise? <==> !(1 <= k <= g.n)
    ensures r.Raise? ==> r.exc == GameplayError
    ensures r.Ok? ==> |r.value| == g.n
  {
    if !(1 <= k <= g.n) then Raise(GameplayError)
    else Ok(seq(g.n, row requires 0 <= row < g.n => g.board[row][k - 1]))
  }

  /** `get_board_diagonal(diagonal_number)`: 1 is the diagonal from the top
      left, -1 the one from the top right; any other number raises. */
  function GetBoardDiagonal(g: Game, d: int): (r: Result<seq<Cell>>)
    requires Square(g)
    ensures r.Raise? <==> d != 1 && d != -1
    ensures r.Raise? ==> r.exc == GameplayError
    ensures r.Ok? ==> |r.value| == g.n
  {
    var b := g.board;
    if d == 1 then Ok(seq(|b|, i requires 0 <= i < |b| => b[i][i]))
    else if d == -1 then Ok(seq(|b|, i requires 0 <= i < |b| => b[i][|b| - i - 1]))
    else Raise(GameplayError)
  }

  /** The lines agree where they cross: a column read down is the rows'
      cells at that column, and each diagonal cell is a row's cell. */
  lemma LinesCross(g: Game, i: int, j: int)
    requires Square(g) && OnGrid(g.n, (i, j))
    ensures GetBoardColumn(g, j + 1).value[i] == GetBoardRow(g, i + 1).value[j]
    ensures GetBoardDiagonal(g, 1).value[i] == GetBoardRow(g, i + 1).value[i]
    ensures GetBoardDiagonal(g, -1).value[i] == GetBoardRow(g, i + 1).value[g.n - i - 1]
  {
  }

  // ---------------------------------------------------------------------
  // Empty cells, corners, completion

  /** The empty cells among the first `c` cells of row `r`, left to right. */
  function EmptyInRow(row: seq<Cell>, r: int, c: nat): (cells: seq<Coord>)
    requires c <= |row|
  {
    if c == 0 then []
    else EmptyInRow(row, r, c - 1) + (if row[c - 1] == Empty then [(r, c - 1)] else [])
  }

  /** The empty cells of the first `k` rows, in the order of the two nested
      `enumerate` loops. */
  function EmptyUpTo(b: seq<seq<Cell>>, k: nat): (r: seq<Coord>)
    requires k <= |b|
  {
    if k == 0 then [] else EmptyUpTo(b, k - 1) + EmptyInRow(b[k - 1], k - 1, |b[k - 1]|)
  }

  /** The list `get_empty_cells` builds. */
  function EmptyCells(b: seq<seq<Cell>>): (r: seq<Coord>) {
    EmptyUpTo(b, |b|)
  }

  /** `get_empty_cells`: raises when no cell is empty. */
  function GetEmptyCells(g: Game): (r: Result<seq<Coord>>)
    ensures r.Raise? <==> |EmptyCells(g.board)| == 0
    ensures r.Raise? ==> r.exc == GameplayError
  {
    var cells := EmptyCells(g.board);
    if |cells| == 0 then Raise(GameplayError) else Ok(cells)
  }

  /** Row-major order: earlier row, or same row and earlier column. */
  predicate RowMajorBefore(x: Coord, y: Coord) {
    x.0 < y.0 || (x.0 == y.0 && x.1 < y.1)
  }

  lemma {:induction false} EmptyInRowMembers(row: seq<Cell>, r: int, c: nat, x: Coord)
    requires c <= |row|
    ensures x in EmptyInRow(row, r, c) <==> x.0 == r && 0 <= x.1 < c && row[x.1] == Empty
  {
    if c > 0 {
      EmptyInRowMembers(row, r, c - 1, x);
    }
  }

  lemma {:induction false} EmptyUpToMembers(b: seq<seq<Cell>>, k: nat, x: Coord)
    requires k <= |b|
    ensures x in EmptyUpTo(b, k) <==>
      0 <= x.0 < k && 0 <= x.1 < |b[x.0]| && b[x.0][x.1] == Empty
  {
    if k > 0 {
      EmptyUpToMembers(b, k - 1, x);
      EmptyInRowMembers(b[k - 1], k - 1, |b[k - 1]|, x);
    }
  }

  /** A cell is listed exactly when it is on the board and empty. */
  lemma EmptyCellsMembers(b: seq<seq<Cell>>, x: Coord)
    ensures x in EmptyCells(b) <==> 0 <= x.0 < |b| && 0 <= x.1 < |b[x.0]| && At(b, x) == Empty
  {
    EmptyUpToMembers(b, |b|, x);
  }

  /** Strictly increasing in row-major order. */
  predicate RowMajorSorted(s: seq<Coord>) {
    forall i, j :: 0 <= i < j < |s| ==> RowMajorBefore(s[i], s[j])
  }

  lemma SortedAppend(a: seq<Coord>, b: seq<Coord>)
    requires RowMajorSorted(a) && RowMajorSorted(b)
    requires forall i, j :: 0 <= i < |a| && 0 <= j < |b| ==> RowMajorBefore(a[i], b[j])
    ensures RowMajorSorted(a + b)
  {
  }

  lemma {:induction false} EmptyInRowSorted(row: seq<Cell>, r: int, c: nat)
    requires c <= |row|
    ensures RowMajorSorted(EmptyInRow(row, r, c))
    ensures forall i :: 0 <= i < |EmptyInRow(row, r, c)| ==>
      EmptyInRow(row, r, c)[i].0 == r && EmptyInRow(row, r, c)[i].1 < c
  {
    if c > 0 {
      EmptyInRowSorted(row, r, c - 1);
      var tail: seq<Coord> := if row[c - 1] == Empty then [(r, c - 1)] else [];
      SortedAppend(EmptyInRow(row, r, c - 1), tail);
    }
  }

  lemma {:induction false} EmptyUpToSorted(b: seq<seq<Cell>>, k: nat)
    requires k <= |b|
    ensures RowMajorSorted(EmptyUpTo(b, k))
    ensures forall i :: 0 <= i < |EmptyUpTo(b, k)| ==> EmptyUpTo(b, k)[i].0 < k
  {
    if k > 0 {
      EmptyUpToSorted(b, k - 1);
      EmptyInRowSorted(b[k - 1], k - 1, |b[k - 1]|);
      SortedAppend(EmptyUpTo(b, k - 1), EmptyInRow(b[k - 1], k - 1, |b[k - 1]|));
    }
  }

  /** The list is in row-major order, so it lists no cell twice. */
  lemma EmptyCellsSorted(b: seq<seq<Cell>>)
    ensures RowMajorSorted(EmptyCells(b))
    ensures Distinct(EmptyCells(b))
  {
    EmptyUpToSorted(b, |b|);
  }

  /** Filling an empty cell with a mark shortens the list by exactly one. */
  lemma PutShrinks(b: seq<seq<Cell>>, c: Coord, v: Cell)
    requires 0 <= c.0 < |b| && 0 <= c.1 < |b[c.0]| && At(b, c) == Empty && v != Empty
    ensures |EmptyCells(Put(b, c, v))| == |EmptyCells(b)| - 1
  {
    var b' := Put(b, c, v);
    var before := set x | x in EmptyCells(b);
    var after := set x | x in EmptyCells(b');
    forall x ensures x in EmptyCells(b') <==> x in before - {c} {
      EmptyCellsMembers(b, x);
      EmptyCellsMembers(b', x);
    }
    EmptyCellsMembers(b, c);
    EmptyCellsSorted(b);
    EmptyCellsSorted(b');
    DistinctLength(EmptyCells(b), before);
    DistinctLength(EmptyCells(b'), before - {c});
  }

  /** `get_corner_cells`. */
  function GetCornerCells(g: Game): (cs: seq<Coord>)
    ensures |cs| == 4
    ensures g.n >= 1 ==> forall i :: 0 <= i < 4 ==> OnGrid(g.n, cs[i])
  {
    var last := g.n - 1;
    [(0, 0), (0, last), (last, 0), (last, last)]
  }

  /** The corners are positions 1, n, n*n - n + 1 and n*n. */
  lemma CornerPositions(g: Game)
    requires g.n >= 1
    ensures var n := g.n;
      Map((c: Coord) => CoordinatesToPosition(n, c), GetCornerCells(g)) ==
        [Ok(1), Ok(n), Ok(n * n - n + 1), Ok(n * n)]
  {
  }

  /** The number of the first `k` rows with no empty cell
      (`row.count(Cell.EMPTY) == 0`). */
  function FullRows(b: seq<seq<Cell>>, k: nat): (count: nat)
    requires k <= |b|
    ensures count <= k
  {
    if k == 0 then 0 else FullRows(b, k - 1) + (if Empty !in b[k - 1] then 1 else 0)
  }

  /** `check_completion`: every row is full, counted against `grid_size`. */
  predicate CheckCompletion(g: Game) {
    FullRows(g.board, |g.board|) == g.n
  }

  lemma {:induction false} FullRowsAll(b: seq<seq<Cell>>, k: nat)
    requires k <= |b|
    ensures FullRows(b, k) == k <==> |EmptyUpTo(b, k)| == 0
  {
    if k > 0 {
      FullRowsAll(b, k - 1);
      var row := b[k - 1];
      if Empty in row {
        var j :| 0 <= j < |row| && row[j] == Empty;
        EmptyInRowMembers(row, k - 1, |row|, (k - 1, j));
      } else if |EmptyInRow(row, k - 1, |row|)| > 0 {
        var x := EmptyInRow(row, k - 1, |row|)[0];
        EmptyInRowMembers(row, k - 1, |row|, x);
      }
    }
  }

  /** On a square board the game is complete exactly when no cell is
      empty. */
  lemma CompletionMeansFull(g: Game)
    requires Square(g)
    ensures CheckCompletion(g) <==> |EmptyCells(g.board)| == 0
  {
    FullRowsAll(g.board, |g.board|);
  }

  // ---------------------------------------------------------------------
  // Setting marks

  /** The two kinds of value the consecutive-mark guard compares. Python's
      `==` between a `str` and an `Enum` member is `False`. */
  datatype PyValue = Str(s: string) | Member(c: Cell)

  /** `set_mark_by_coordinates` as it stands: refuses an `EMPTY` mark,
      coordinates off the grid and an occupied cell, all with
      `GameplayError`; the guard against two consecutive moves with one
      mark compares the recorded name with the `Cell` itself and so never
      fires. Otherwise the cell takes the mark and the move is recorded
      under its position. */
  function SetMarkAsWritten(g: Game, c: Coord, mark: Cell): (r: Result<Game>)
    requires Square(g)
    ensures r.Raise? ==> r.exc == GameplayError
    ensures r.Raise? <==> mark == Empty || !OnGrid(g.n, c) || At(g.board, c) != Empty
  {
    if mark == Empty then Raise(GameplayError)
    else if !OnGrid(g.n, c) then Raise(GameplayError)
    else if At(g.board, c) != Empty then Raise(GameplayError)
    else if |g.moves| != 0 && Str(g.moves[|g.moves| - 1].marker) == Member(mark) then Raise(GameplayError)
    else
      match CoordinatesToPosition(g.n, c)
      case Raise(e) => Raise(e)
      case Ok(pos) => Ok(Game(g.n, Put(g.board, c, mark), g.moves + [Move(pos, CellName(mark))]))
  }

  /** The consecutive-mark guard as written is dead: the same mark is
      accepted twice in a row on two different empty cells. */
  lemma SameMarkTwice(g: Game, c: Coord, d: Coord, mark: Cell)
    requires Square(g) && mark != Empty && c != d
    requires OnGrid(g.n, c) && OnGrid(g.n, d) && At(g.board, c) == Empty && At(g.board, d) == Empty
    ensures SetMarkAsWritten(g, c, mark).Ok?
    ensures SetMarkAsWritten(SetMarkAsWritten(g, c, mark).value, d, mark).Ok?
  {
    var h := SetMarkAsWritten(g, c, mark).value;
    PutFrame(g, c, mark);
    assert At(h.board, d) == Empty;
  }

  /** A move the source accepts, including a repeated mark, changes that one
      cell and nothing else, and records one move whose position names that
      cell under the mark's name. */
  lemma SetMarkAsWrittenEffect(g: Game, c: Coord, mark: Cell)
    requires Square(g) && SetMarkAsWritten(g, c, mark).Ok?
    ensures var h := SetMarkAsWritten(g, c, mark).value;
      && Square(h) && h.n == g.n
      && (forall d :: OnGrid(g.n, d) ==> At(h.board, d) == if d == c then mark else At(g.board, d))
      && |h.moves| == |g.moves| + 1 && h.moves[..|g.moves|] == g.moves
      && h.moves[|g.moves|].marker == CellName(mark)
      && PositionLookup(g.n, h.moves[|g.moves|].pos) == Ok(c)
  {
    PutFrame(g, c, mark);
    CoordinatesRoundTrip(g.n, c);
  }

  /** The name of the mark recorded last, if any move is recorded. */
  function LastMarker(g: Game): (r: Option<string>) {
    if |g.moves| == 0 then None else Some(g.moves[|g.moves| - 1].marker)
  }

  /** `set_mark_by_coordinates` with the guard compare the recorded name
      with `mark.name`, as evidently intended: a mark is also refused when
      the last recorded move was made with the same mark. */
  function SetMarkByCoordinates(g: Game, c: Coord, mark: Cell): (r: Result<Game>)
    requires Square(g)
    ensures r.Raise? ==> r.exc == GameplayError
  {
    if mark == Empty then Raise(GameplayError)
    else if !OnGrid(g.n, c) then Raise(GameplayError)
    else if At(g.board, c) != Empty then Raise(GameplayError)
    else if LastMarker(g) == Some(CellName(mark)) then Raise(GameplayError)
    else
      match CoordinatesToPosition(g.n, c)
      case Raise(e) => Raise(e)
      case Ok(pos) => Ok(Game(g.n, Put(g.board, c, mark), g.moves + [Move(pos, CellName(mark))]))
  }

  /** The corrected guard only adds the consecutive-mark refusal: wherever
      the last recorded mark differs, both versions give the same answer,
      and where it is the same, the corrected one refuses. */
  lemma GuardOnlyAddsRefusal(g: Game, c: Coord, mark: Cell)
    requires Square(g)
    ensures LastMarker(g) != Some(CellName(mark)) ==>
      SetMarkByCoordinates(g, c, mark) == SetMarkAsWritten(g, c, mark)
    ensures LastMarker(g) == Some(CellName(mark)) ==>
      SetMarkByCoordinates(g, c, mark) == Raise(GameplayError)
  {
  }

  /** A successful move changes that one cell and nothing else, and records
      one move whose position names that cell. */
  lemma SetMarkEffect(g: Game, c: Coord, mark: Cell)
    requires Square(g) && SetMarkByCoordinates(g, c, mark).Ok?
    ensures var h := SetMarkByCoordinates(g, c, mark).value;
      && Square(h) && h.n == g.n
      && (forall d :: OnGrid(g.n, d) ==> At(h.board, d) == if d == c then mark else At(g.board, d))
      && |h.moves| == |g.moves| + 1 && h.moves[..|g.moves|] == g.moves
      && h.moves[|g.moves|].marker == CellName(mark)
      && PositionLookup(g.n, h.moves[|g.moves|].pos) == Ok(c)
  {
    PutFrame(g, c, mark);
    CoordinatesRoundTrip(g.n, c);
  }

  /** A move is refused exactly when the mark is `EMPTY`, the cell is off
      the grid or taken, or the same mark moved last. */
  lemma SetMarkRefusals(g: Game, c: Coord, mark: Cell)
    requires Square(g)
    ensures SetMarkByCoordinates(g, c, mark).Raise? <==>
      mark == Empty || !OnGrid(g.n, c) || At(g.board, c) != Empty || LastMarker(g) == Some(CellName(mark))
  {
    if mark != Empty && OnGrid(g.n, c) {
      CoordinatesRoundTrip(g.n, c);
    }
  }

  /** No two consecutive recorded moves carry the same mark. */
  predicate Alternating(moves: seq<Move>) {
    forall k :: 0 < k < |moves| ==> moves[k].marker != moves[k - 1].marker
  }

  /** With the corrected guard every successful move keeps the record
      alternating, so the same mark can never move twice in a row. */
  lemma SetMarkAlternates(g: Game, c: Coord, mark: Cell)
    requires Square(g) && Alternating(g.moves) && SetMarkByCoordinates(g, c, mark).Ok?
    ensures Alternating(SetMarkByCoordinates(g, c, mark).value.moves)
    ensures forall d :: SetMarkByCoordinates(SetMarkByCoordinates(g, c, mark).value, d, mark).Raise?
  {
    SetMarkEffect(g, c, mark);
    var h := SetMarkByCoordinates(g, c, mark).value;
    assert LastMarker(h) == Some(CellName(mark));
  }

  /** `set_mark_by_position`: the position's coordinates, then the checks of
      `set_mark_by_coordinates` as it stands; a position outside 1..n*n
      raises `KeyError`. */
  function SetMarkByPosition(g: Game, pos: int, mark: Cell): (r: Result<Game>)
    requires Square(g)
    ensures r == Raise(KeyError) <==> !(1 <= pos <= g.n * g.n)
  {
    match PositionLookup(g.n, pos)
    case Raise(e) => Raise(e)
    case Ok(c) => SetMarkAsWritten(g, c, mark)
  }

  /** A move by position is refused exactly when the position is not a key
      (`KeyError`), or the mark is `EMPTY` or the cell in row `(pos - 1) / n`,
      column `(pos - 1) % n` is taken (`GameplayError`); otherwise that cell
      alone takes the mark and `pos` itself is recorded, whatever mark moved
      last. */
  lemma SetMarkByPositionEffect(g: Game, pos: int, mark: Cell)
    requires Square(g)
    ensures var r := SetMarkByPosition(g, pos, mark);
      && (r.Raise? <==>
            (!(1 <= pos <= g.n * g.n) || mark == Empty
             || At(g.board, PositionToCoordinates(g.n, pos)) != Empty))
      && (r.Raise? && 1 <= pos <= g.n * g.n ==> r.exc == GameplayError)
    ensures 1 <= pos <= g.n * g.n ==>
      && g.n > 0
      && OnGrid(g.n, ((pos - 1) / g.n, (pos - 1) % g.n))
      && PositionToCoordinates(g.n, pos) == ((pos - 1) / g.n, (pos - 1) % g.n)
    ensures SetMarkByPosition(g, pos, mark).Ok? ==>
      var h := SetMarkByPosition(g, pos, mark).value;
      var c := ((pos - 1) / g.n, (pos - 1) % g.n);
      && Square(h) && h.n == g.n
      && (forall d :: OnGrid(g.n, d) ==> At(h.board, d) == if d == c then mark else At(g.board, d))
      && h.moves == g.moves + [Move(pos, CellName(mark))]
  {
    if 1 <= pos <= g.n * g.n {
      var c := PositionToCoordinates(g.n, pos);
      PositionRoundTrip(g.n, pos);
      PutFrame(g, c, mark);
    }
  }

  /** `set_mark_by_position` over the corrected guard: the same position
      lookup, then `SetMarkByCoordinates`. */
  function GuardedSetMarkByPosition(g: Game, pos: int, mark: Cell): (r: Result<Game>)
    requires Square(g)
    ensures r == Raise(KeyError) <==> !(1 <= pos <= g.n * g.n)
    ensures r.Ok? ==> r.value.moves == g.moves + [Move(pos, CellName(mark))]
  {
    match PositionLookup(g.n, pos)
    case Raise(e) => Raise(e)
    case Ok(c) =>
      PositionRoundTrip(g.n, pos);
      SetMarkByCoordinates(g, c, mark)
  }

  /** The corrected wrapper agrees with the source's wrapper except that it
      refuses the mark that moved last, and it keeps the move record
      alternating. */
  lemma GuardedPositionAgrees(g: Game, pos: int, mark: Cell)
    requires Square(g)
    ensures LastMarker(g) != Some(CellName(mark)) ==>
      GuardedSetMarkByPosition(g, pos, mark) == SetMarkByPosition(g, pos, mark)
    ensures LastMarker(g) == Some(CellName(mark)) ==>
      GuardedSetMarkByPosition(g, pos, mark).Raise?
    ensures Alternating(g.moves) && GuardedSetMarkByPosition(g, pos, mark).Ok? ==>
      Alternating(GuardedSetMarkByPosition(g, pos, mark).value.moves)
  {
    if 1 <= pos <= g.n * g.n {
      var c := PositionToCoordinates(g.n, pos);
      GuardOnlyAddsRefusal(g, c, mark);
      if Alternating(g.moves) && SetMarkByCoordinates(g, c, mark).Ok? {
        SetMarkAlternates(g, c, mark);
      }
    }
  }

  // ---------------------------------------------------------------------
  // Lines, the win scan and the score

  /** A line the scans look at: a row or a column counted from 1, or a
      diagonal numbered 1 or -1. */
  datatype Line = RowLine(i: int) | ColumnLine(i: int) | DiagonalLine(d: int)

  predicate IsLine(n: int, l: Line) {
    match l
    case RowLine(i) => 1 <= i <= n
    case ColumnLine(i) => 1 <= i <= n
    case DiagonalLine(d) => d == 1 || d == -1
  }

  /** The cells of a line, through the three accessors. */
  function Cells(g: Game, l: Line): (cs: seq<Cell>)
    requires Square(g) && IsLine(g.n, l)
    ensures |cs| == g.n
  {
    match l
    case RowLine(i) => GetBoardRow(g, i).value
    case ColumnLine(i) => GetBoardColumn(g, i).value
    case DiagonalLine(d) => GetBoardDiagonal(g, d).value
  }

  /** `len(set(line)) == 1 and Cell.EMPTY not in line`. */
  predicate Completed(line: seq<Cell>) {
    |set x | x in line| == 1 && Empty !in line
  }

  /** A completed line is a non-empty line of one mark. */
  lemma CompletedMeans(line: seq<Cell>)
    ensures Completed(line) <==>
      |line| > 0 && line[0] != Empty && forall k :: 0 <= k < |line| ==> line[k] == line[0]
  {
    var s := set x | x in line;
    if |line| > 0 && line[0] != Empty && forall k :: 0 <= k < |line| ==> line[k] == line[0] {
      assert s == {line[0]};
    }
    if Completed(line) {
      var x :| x in s;
      assert s - {x} == {} by {
        assert |s - {x}| == 0;
      }
      forall k | 0 <= k < |line| ensures line[k] == line[0] {
        assert line[k] in s && line[0] in s;
      }
    }
  }

  /** The first completed row at or after row `i`. */
  function FirstRow(g: Game, i: int): (r: Option<int>)
    requires Square(g) && i >= 1
    decreases g.n + 1 - i
  {
    if i > g.n then None
    else if Completed(Cells(g, RowLine(i))) then Some(i)
    else FirstRow(g, i + 1)
  }

  /** The first completed column at or after column `i`. */
  function FirstColumn(g: Game, i: int): (r: Option<int>)
    requires Square(g) && i >= 1
    decreases g.n + 1 - i
  {
    if i > g.n then None
    else if Completed(Cells(g, ColumnLine(i))) then Some(i)
    else FirstColumn(g, i + 1)
  }

  /** The scan shared by `check_win` and `get_score`: rows, then columns,
      then the diagonals -1 and 1 (`range(-1, 2, 2)`). */
  function FirstLine(g: Game): (r: Option<Line>)
    requires Square(g)
  {
    match FirstRow(g, 1)
    case Some(i) => Some(RowLine(i))
    case None =>
      match FirstColumn(g, 1)
      case Some(i) => Some(ColumnLine(i))
      case None =>
        if Completed(Cells(g, DiagonalLine(-1))) then Some(DiagonalLine(-1))
        else if Completed(Cells(g, DiagonalLine(1))) then Some(DiagonalLine(1))
        else None
  }

  /** The place of a line in the scan. */
  function ScanOrder(n: int, l: Line): (r: int) {
    match l
    case RowLine(i) => i
    case ColumnLine(i) => n + i
    case DiagonalLine(d) => if d == -1 then 2 * n + 1 else 2 * n + 2
  }

  lemma {:induction false} FirstRowFacts(g: Game, i: int)
    requires Square(g) && i >= 1
    ensures FirstRow(g, i).Some? ==> i <= FirstRow(g, i).value <= g.n
    ensures FirstRow(g, i).Some? ==> Completed(Cells(g, RowLine(FirstRow(g, i).value)))
    ensures forall j :: i <= j <= g.n && (FirstRow(g, i).None? || j < FirstRow(g, i).value) ==>
      !Completed(Cells(g, RowLine(j)))
    decreases g.n + 1 - i
  {
    if i <= g.n && !Completed(Cells(g, RowLine(i))) {
      FirstRowFacts(g, i + 1);
    }
  }

  lemma {:induction false} FirstColumnFacts(g: Game, i: int)
    requires Square(g) && i >= 1
    ensures FirstColumn(g, i).Some? ==> i <= FirstColumn(g, i).value <= g.n
    ensures FirstColumn(g, i).Some? ==> Completed(Cells(g, ColumnLine(FirstColumn(g, i).value)))
    ensures forall j :: i <= j <= g.n && (FirstColumn(g, i).None? || j < FirstColumn(g, i).value) ==>
      !Completed(Cells(g, ColumnLine(j)))
    decreases g.n + 1 - i
  {
    if i <= g.n && !Completed(Cells(g, ColumnLine(i))) {
      FirstColumnFacts(g, i + 1);
    }
  }

  /** The scan finds a completed line exactly when there is one, and it
      finds the first in its order. */
  lemma FirstLineFacts(g: Game)
    requires Square(g)
    ensures FirstLine(g).Some? ==> IsLine(g.n, FirstLine(g).value) && Completed(Cells(g, FirstLine(g).value))
    ensures forall l :: IsLine(g.n, l) && Completed(Cells(g, l)) ==>
      FirstLine(g).Some? && ScanOrder(g.n, FirstLine(g).value) <= ScanOrder(g.n, l)
  {
    FirstRowFacts(g, 1);
    FirstColumnFacts(g, 1);
    forall l | IsLine(g.n, l) && Completed(Cells(g, l))
      ensures FirstLine(g).Some? && ScanOrder(g.n, FirstLine(g).value) <= ScanOrder(g.n, l)
    {
      if l.RowLine? {
        assert FirstRow(g, 1).Some?;
      } else if l.ColumnLine? && FirstRow(g, 1).None? {
        assert FirstColumn(g, 1).Some?;
      }
    }
  }

  /** The mark of a completed line: `row[0]`, `next(iter(column))`, or the
      one member of the diagonal's set. */
  function LineMark(g: Game, l: Line): (r: Cell)
    requires Square(g) && IsLine(g.n, l) && g.n > 0
  {
    Cells(g, l)[0]
  }

  /** `CheckWinResult(victory, winner, coordinates)`. */
  datatype WinResult = WinResult(victory: bool, winner: Option<string>, coordinates: Option<seq<Coord>>)

  /** `"computer" if ... == Cell.COMPUTER else "player"`. */
  function WinnerName(c: Cell): (r: string) {
    if c == Computer then "computer" else "player"
  }

  /** The cells of a line, in the order the line lists them. */
  function LineCoordinates(n: nat, l: Line): (cs: seq<Coord>)
    ensures |cs| == n
  {
    match l
    case RowLine(i) => seq(n, j => (i - 1, j))
    case ColumnLine(i) => seq(n, j => (j, i - 1))
    case DiagonalLine(d) => if d == 1 then seq(n, j => (j, j)) else seq(n, j => (j, n - j - 1))
  }

  /** The coordinates `check_win` reports, as written: those of the main
      diagonal are `range(0, 3)` whatever the grid size. */
  function CoordinatesAsWritten(n: nat, l: Line): (r: seq<Coord>) {
    if l == DiagonalLine(1) then seq(3, j => (j, j)) else LineCoordinates(n, l)
  }

  /** `check_win` as written. */
  function CheckWinAsWritten(g: Game): (r: WinResult)
    requires Square(g)
  {
    match FirstLine(g)
    case None => WinResult(false, None, None)
    case Some(l) =>
      FirstLineFacts(g);
      WinResult(true, Some(WinnerName(LineMark(g, l))), Some(CoordinatesAsWritten(g.n, l)))
  }

  /** `check_win` with the main diagonal's coordinates taken over the whole
      grid, as for every other line. */
  function CheckWin(g: Game): (r: WinResult)
    requires Square(g)
  {
    match FirstLine(g)
    case None => WinResult(false, None, None)
    case Some(l) =>
      FirstLineFacts(g);
      WinResult(true, Some(WinnerName(LineMark(g, l))), Some(LineCoordinates(g.n, l)))
  }

  /** The coordinates of a line name its cells. */
  lemma LineCoordinatesSpell(g: Game, l: Line, j: int)
    requires Square(g) && IsLine(g.n, l) && 0 <= j < g.n
    ensures OnGrid(g.n, LineCoordinates(g.n, l)[j])
    ensures At(g.board, LineCoordinates(g.n, l)[j]) == Cells(g, l)[j]
  {
  }

  /** `check_win` reports a victory exactly when some row, column or
      diagonal holds one mark throughout. */
  lemma CheckWinVictory(g: Game)
    requires Square(g)
    ensures CheckWin(g).victory <==>
      exists l :: IsLine(g.n, l) && Completed(Cells(g, l))
  {
    FirstLineFacts(g);
  }

  /** A reported victory names the line's mark, and the reported cells are
      exactly the line's: all `n` of them on the grid, each holding the
      winner's mark. */
  lemma CheckWinCoordinates(g: Game)
    requires Square(g) && CheckWin(g).victory
    ensures g.n > 0
    ensures var w := CheckWin(g);
      w.winner.Some? && w.coordinates.Some? && |w.coordinates.value| == g.n
    ensures var w := CheckWin(g);
      forall j :: 0 <= j < g.n ==>
        OnGrid(g.n, w.coordinates.value[j]) && At(g.board, w.coordinates.value[j]) != Empty
        && WinnerName(At(g.board, w.coordinates.value[j])) == w.winner.value
  {
    FirstLineFacts(g);
    var l := FirstLine(g).value;
    CompletedMeans(Cells(g, l));
    forall j | 0 <= j < g.n
      ensures OnGrid(g.n, LineCoordinates(g.n, l)[j])
      ensures At(g.board, LineCoordinates(g.n, l)[j]) == Cells(g, l)[j]
    {
      LineCoordinatesSpell(g, l, j);
    }
  }

  /** As written and corrected agree on the victory and the winner, and on
      the coordinates unless the main diagonal wins on a grid other than
      3 by 3. */
  lemma CheckWinAgrees(g: Game)
    requires Square(g)
    ensures CheckWinAsWritten(g).victory == CheckWin(g).victory
    ensures CheckWinAsWritten(g).winner == CheckWin(g).winner
    ensures FirstLine(g) != Some(DiagonalLine(1)) || g.n == 3 ==> CheckWinAsWritten(g) == CheckWin(g)
  {
  }

  /** A 4 by 4 board whose only completed line is the main diagonal. */
  function DiagonalWin(): (r: Game) {
    Game(4, seq(4, r => seq(4, c => if r == c then Computer else Empty)), [])
  }

  /** On that board the main diagonal wins, yet the reported cells stop at
      `(2, 2)`: the winning cell `(3, 3)` is left out. */
  lemma MainDiagonalCoordinatesShort()
    ensures Square(DiagonalWin())
    ensures CheckWinAsWritten(DiagonalWin()).victory
    ensures CheckWinAsWritten(DiagonalWin()).coordinates == Some([(0, 0), (1, 1), (2, 2)])
    ensures At(DiagonalWin().board, (3, 3)) == Computer
    ensures (3, 3) in CheckWin(DiagonalWin()).coordinates.value
  {
    var g := DiagonalWin();
    forall i | 1 <= i <= 4 ensures !Completed(Cells(g, RowLine(i))) && !Completed(Cells(g, ColumnLine(i))) {
      var j := if i == 1 then 1 else 0;
      assert Cells(g, RowLine(i))[j] == Empty;
      assert Cells(g, ColumnLine(i))[j] == Empty;
    }
    FirstRowFacts(g, 1);
    FirstColumnFacts(g, 1);
    assert Cells(g, DiagonalLine(-1))[0] == Empty;
    CompletedMeans(Cells(g, DiagonalLine(1)));
    assert FirstLine(g) == Some(DiagonalLine(1));
    assert CoordinatesAsWritten(4, DiagonalLine(1)) == [(0, 0), (1, 1), (2, 2)];
    assert LineCoordinates(4, DiagonalLine(1))[3] == (3, 3);
  }

  /** `get_score(maximizing_player)`: 1 when the first completed line in
      the scan holds the maximizing mark, -1 when it holds another, 0 when
      there is none. */
  function GetScore(g: Game, maximizing: Cell): (score: int)
    requires Square(g)
    ensures -1 <= score <= 1
  {
    match FirstLine(g)
    case None => 0
    case Some(l) =>
      FirstLineFacts(g);
      if LineMark(g, l) == maximizing then 1 else -1
  }

  /** The score is non-zero exactly on a victory, positive exactly when
      the winner is the maximizing mark, and the two marks' scores are
      opposite. */
  lemma ScoreMatchesWin(g: Game)
    requires Square(g)
    ensures GetScore(g, Computer) != 0 <==> CheckWin(g).victory
    ensures GetScore(g, Computer) == 1 <==> CheckWin(g).winner == Some("computer")
    ensures GetScore(g, Player) == 1 <==> CheckWin(g).winner == Some("player")
    ensures GetScore(g, Player) == -GetScore(g, Computer)
  {
    FirstLineFacts(g);
    if FirstLine(g).Some? {
      CompletedMeans(Cells(g, FirstLine(g).value));
    }
  }

  /** A new game has no victory and every cell free. */
  lemma NewGame(n: nat)
    requires n > 0
    ensures var g := Game(n, CreateBoard(n), []);
      && !CheckWin(g).victory && GetScore(g, Computer) == 0
      && !CheckCompletion(g) && GetEmptyCells(g).Ok?
  {
    var g := Game(n, CreateBoard(n), []);
    FirstLineFacts(g);
    forall l | IsLine(n, l) ensures !Completed(Cells(g, l)) {
      CompletedMeans(Cells(g, l));
    }
    EmptyCellsMembers(g.board, (0, 0));
    CompletionMeansFull(g);
  }

  // ---------------------------------------------------------------------
  // minimax

  /** A score of `minimax`: a game value, or the `float("-inf")` and
      `float("inf")` it starts from. */
  datatype Score = NegInf | Finite(v: int) | PosInf

  /** `<` on scores. */
  predicate Less(a: Score, b: Score) {
    match (a, b)
    case (NegInf, NegInf) => false
    case (NegInf, _) => true
    case (Finite(x), Finite(y)) => x < y
    case (Finite(_), PosInf) => true
    case _ => false
  }

  /** The mark that moves after `c` (`opp_player`). */
  function Opponent(c: Cell): (r: Cell) {
    if c == Computer then Player else Computer
  }

  /** `minimizing_player`. */
  function Minimizing(maximizing: Cell): (r: Cell) {
    if maximizing == Computer then Player else Computer
  }

  /** The update condition of the loop: a strictly better score for the
      mark to move. */
  predicate Improves(current: Cell, maximizing: Cell, score: Score, best: Score) {
    (current == maximizing && Less(best, score)) || (current == Minimizing(maximizing) && Less(score, best))
  }

  /** The game is over: the board is full or someone has won. */
  predicate Terminal(g: Game)
    requires Square(g)
  {
    CheckCompletion(g) || CheckWin(g).victory
  }

  /** `available_moves`: the empty cells, or nothing when
      `get_empty_cells` raises. */
  function Available(g: Game): (r: seq<Coord>) {
    match GetEmptyCells(g)
    case Raise(_) => []
    case Ok(cells) => cells
  }

  /** The board after `current` marks cell `m`, the game's moves untouched:
      `minimax` writes the board directly. */
  function Child(g: Game, m: Coord, current: Cell): (r: Game)
    requires Square(g) && OnGrid(g.n, m)
  {
    g.(board := Put(g.board, m, current))
  }

  /** `minimax(current_player, maximizing_player, depth)`: the game value
      of the board for the maximizing mark and the first move reaching it.
      The unused `depth` is left out. */
  function Minimax(g: Game, current: Cell, maximizing: Cell): (r: (Option<Coord>, Score))
    requires Square(g) && current != Empty
    decreases |EmptyCells(g.board)|, 1, 0
  {
    if Terminal(g) then (None, Finite(GetScore(g, maximizing)))
    else
      var best := if current == maximizing then NegInf else PosInf;
      Scan(g, current, maximizing, Available(g), 0, None, best)
  }

  /** The value of the board after `current` plays `m`, the opponent to
      move. */
  function ChildScore(g: Game, current: Cell, maximizing: Cell, m: Coord): (r: Score)
    requires Square(g) && current != Empty && m in EmptyCells(g.board)
    decreases |EmptyCells(g.board)|, 0, 0
  {
    EmptyCellsMembers(g.board, m);
    PutFrame(g, m, current);
    PutShrinks(g.board, m, current);
    Minimax(Child(g, m, current), Opponent(current), maximizing).1
  }

  /** The `for move in available_moves` loop from index `i`, with the best
      move and score so far. */
  function Scan(g: Game, current: Cell, maximizing: Cell, moves: seq<Coord>, i: nat,
                bestMove: Option<Coord>, bestScore: Score): (r: (Option<Coord>, Score))
    requires Square(g) && current != Empty && moves == Available(g) && i <= |moves|
    decreases |EmptyCells(g.board)|, 0, |moves| - i
  {
    if i == |moves| then (bestMove, bestScore)
    else
      var score := ChildScore(g, current, maximizing, moves[i]);
      if Improves(current, maximizing, score, bestScore) then
        Scan(g, current, maximizing, moves, i + 1, Some(moves[i]), score)
      else
        Scan(g, current, maximizing, moves, i + 1, bestMove, bestScore)
  }

  /** A game value: -1, 0 or 1. */
  predicate Valued(s: Score) {
    s.Finite? && -1 <= s.v <= 1
  }

  /** With two real marks, every value `minimax` returns is a game value:
      the infinite starting scores are always replaced. */
  lemma MinimaxValued(g: Game, current: Cell, maximizing: Cell)
    requires Square(g) && current != Empty && maximizing != Empty
    ensures Valued(Minimax(g, current, maximizing).1)
    decreases |EmptyCells(g.board)|, 1, 0
  {
    if !Terminal(g) {
      CompletionMeansFull(g);
      var best := if current == maximizing then NegInf else PosInf;
      ScanValued(g, current, maximizing, Available(g), 0, None, best);
    }
  }

  lemma ScanValued(g: Game, current: Cell, maximizing: Cell, moves: seq<Coord>, i: nat,
                   bestMove: Option<Coord>, bestScore: Score)
    requires Square(g) && current != Empty && maximizing != Empty
    requires moves == Available(g) && i <= |moves|
    requires Valued(bestScore) ||
      (i < |moves| && bestScore == if current == maximizing then NegInf else PosInf)
    ensures Valued(Scan(g, current, maximizing, moves, i, bestMove, bestScore).1)
    decreases |EmptyCells(g.board)|, 0, |moves| - i
  {
    if i < |moves| {
      var m := moves[i];
      EmptyCellsMembers(g.board, m);
      PutFrame(g, m, current);
      PutShrinks(g.board, m, current);
      MinimaxValued(Child(g, m, current), Opponent(current), maximizing);
      var score := ChildScore(g, current, maximizing, m);
      if Improves(current, maximizing, score, bestScore) {
        ScanValued(g, current, maximizing, moves, i + 1, Some(m), score);
      } else {
        ScanValued(g, current, maximizing, moves, i + 1, bestMove, bestScore);
      }
    }
  }

  /** Every move's value is a game value. */
  lemma ChildValued(g: Game, current: Cell, maximizing: Cell, m: Coord)
    requires Square(g) && current != Empty && maximizing != Empty && m in EmptyCells(g.board)
    ensures Valued(ChildScore(g, current, maximizing, m))
  {
    EmptyCellsMembers(g.board, m);
    PutFrame(g, m, current);
    MinimaxValued(Child(g, m, current), Opponent(current), maximizing);
  }

  /** `Improves` is a strict order for either mark, total on game
      values, and every game value improves on the starting score. */
  lemma ImprovesOrder(current: Cell, maximizing: Cell, a: Score, b: Score, c: Score)
    requires current != Empty && maximizing != Empty
    ensures !Improves(current, maximizing, a, a)
    ensures Improves(current, maximizing, a, b) ==> !Improves(current, maximizing, b, a)
    ensures Improves(current, maximizing, a, b) && Improves(current, maximizing, b, c) ==>
            Improves(current, maximizing, a, c)
    ensures Valued(a) && Valued(b) && !Improves(current, maximizing, a, b) && Improves(current, maximizing, c, b) ==>
            Improves(current, maximizing, c, a)
    ensures Valued(a) && b == (if current == maximizing then NegInf else PosInf) ==>
            Improves(current, maximizing, a, b)
  {
  }

  /** No move from index `i` on improves on `s`. */
  predicate NoneImproves(g: Game, current: Cell, maximizing: Cell, moves: seq<Coord>, i: nat, s: Score)
    requires Square(g) && current != Empty && moves == Available(g)
  {
    forall j :: i <= j < |moves| ==> !Improves(current, maximizing, ChildScore(g, current, maximizing, moves[j]), s)
  }

  /** `r` is move `k`, with its score, and that score strictly improves
      on every move from index `i` up to `k`. */
  predicate FirstBestFrom(g: Game, current: Cell, maximizing: Cell, moves: seq<Coord>, i: nat, k: nat,
                          r: (Option<Coord>, Score))
    requires Square(g) && current != Empty && moves == Available(g)
  {
    && i <= k < |moves|
    && r == (Some(moves[k]), ChildScore(g, current, maximizing, moves[k]))
    && forall j :: i <= j < k ==> Improves(current, maximizing, r.1, ChildScore(g, current, maximizing, moves[j]))
  }

  /** Extending `NoneImproves` one move to the left. */
  lemma NoneImprovesStep(g: Game, current: Cell, maximizing: Cell, moves: seq<Coord>, i: nat, s: Score)
    requires Square(g) && current != Empty && moves == Available(g) && i < |moves|
    requires NoneImproves(g, current, maximizing, moves, i + 1, s)
    requires !Improves(current, maximizing, ChildScore(g, current, maximizing, moves[i]), s)
    ensures NoneImproves(g, current, maximizing, moves, i, s)
  {
  }

  /** Extending `FirstBestFrom` one move to the left. */
  lemma FirstBestStep(g: Game, current: Cell, maximizing: Cell, moves: seq<Coord>, i: nat, k: nat,
                      r: (Option<Coord>, Score))
    requires Square(g) && current != Empty && moves == Available(g) && i < |moves|
    requires FirstBestFrom(g, current, maximizing, moves, i + 1, k, r)
    requires Improves(current, maximizing, r.1, ChildScore(g, current, maximizing, moves[i]))
    ensures FirstBestFrom(g, current, maximizing, moves, i, k, r)
  {
  }

  /** The loop from index `i` on: no later move improves on the result,
      and the result is either the best so far, untouched, or the first
      later move that reaches it, which strictly improves on the best so
      far and on every move between. */
  lemma {:induction false} ScanPicksFirstBest(g: Game, current: Cell, maximizing: Cell, moves: seq<Coord>,
                                              i: nat, bestMove: Option<Coord>, bestScore: Score)
    requires Square(g) && current != Empty && maximizing != Empty
    requires moves == Available(g) && i <= |moves|
    requires Valued(bestScore) || bestScore == if current == maximizing then NegInf else PosInf
    ensures NoneImproves(g, current, maximizing, moves, i, Scan(g, current, maximizing, moves, i, bestMove, bestScore).1)
    ensures var r := Scan(g, current, maximizing, moves, i, bestMove, bestScore);
      r == (bestMove, bestScore) ||
      exists k :: FirstBestFrom(g, current, maximizing, moves, i, k, r) && Improves(current, maximizing, r.1, bestScore)
    decreases |moves| - i
  {
    if i < |moves| {
      var m := moves[i];
      var score := ChildScore(g, current, maximizing, m);
      ChildValued(g, current, maximizing, m);
      var r := Scan(g, current, maximizing, moves, i, bestMove, bestScore);
      if Improves(current, maximizing, score, bestScore) {
        assert r == Scan(g, current, maximizing, moves, i + 1, Some(m), score);
        ScanPicksFirstBest(g, current, maximizing, moves, i + 1, Some(m), score);
        ImprovesOrder(current, maximizing, r.1, score, bestScore);
        if r == (Some(m), score) {
          assert FirstBestFrom(g, current, maximizing, moves, i, i, r);
        } else {
          var k :| FirstBestFrom(g, current, maximizing, moves, i + 1, k, r) && Improves(current, maximizing, r.1, score);
          FirstBestStep(g, current, maximizing, moves, i, k, r);
        }
        NoneImprovesStep(g, current, maximizing, moves, i, r.1);
      } else {
        assert r == Scan(g, current, maximizing, moves, i + 1, bestMove, bestScore);
        ScanPicksFirstBest(g, current, maximizing, moves, i + 1, bestMove, bestScore);
        ImprovesOrder(current, maximizing, score, bestScore, r.1);
        ImprovesOrder(current, maximizing, r.1, score, bestScore);
        if r != (bestMove, bestScore) {
          var k :| FirstBestFrom(g, current, maximizing, moves, i + 1, k, r) && Improves(current, maximizing, r.1, bestScore);
          FirstBestStep(g, current, maximizing, moves, i, k, r);
        }
        NoneImprovesStep(g, current, maximizing, moves, i, r.1);
      }
    }
  }

  /** Off a finished board `minimax` names a move: an empty cell whose
      value no other empty cell improves on, and the first such in
      row-major order (the earlier cells are all strictly worse for the
      mark to move). */
  lemma MinimaxChoice(g: Game, current: Cell, maximizing: Cell)
    requires Square(g) && current != Empty && maximizing != Empty && !Terminal(g)
    ensures var r, moves := Minimax(g, current, maximizing), Available(g);
      NoneImproves(g, current, maximizing, moves, 0, r.1)
      && exists k :: FirstBestFrom(g, current, maximizing, moves, 0, k, r)
  {
    CompletionMeansFull(g);
    var moves := Available(g);
    var best := if current == maximizing then NegInf else PosInf;
    ScanPicksFirstBest(g, current, maximizing, moves, 0, None, best);
    var m := moves[0];
    ChildValued(g, current, maximizing, m);
    ImprovesOrder(current, maximizing, ChildScore(g, current, maximizing, m), best, best);
  }

  /** `minimax` passes (answers no move) exactly on a finished board, and
      then its value is the board's score. */
  lemma MinimaxPasses(g: Game, current: Cell, maximizing: Cell)
    requires Square(g) && current != Empty && maximizing != Empty
    ensures Minimax(g, current, maximizing).0.None? <==> Terminal(g)
    ensures Terminal(g) ==> Minimax(g, current, maximizing).1 == Finite(GetScore(g, maximizing))
  {
    if !Terminal(g) {
      MinimaxChoice(g, current, maximizing);
    }
  }
}
