/** The three checks of `restricted_invalid_moves.py`: capturing one's own
    piece, landing on a friendly square, and jumping over pieces. Unlike
    the piece classes, the line-of-sight check reads ranks from
    `"12345678"`, so its rank index of a square at row `r` is `7 - r`. */
module Restricted {
  import opened Common
  import opened Notation
  import opened Geometry
  import opened Tokens

  const Blank: string := " "

  /** `_get_piece_color_from_piece`: `"w"` when the coloured token starts
      with `w`, `"b"` otherwise. */
  function MoverColour(p: Params): (c: char)
    ensures c == DeterminePieceColor(p)[0]
    ensures c == 'w' <==> p.playing == p.playerWhite
  {
    if DeterminePieceColor(p)[0] == 'w' then 'w' else 'b'
  }

  // ---------------------------------------------------------------------
  // check_for_same_color_piece

  /** `check_for_same_color_piece(target_cell_index, replaced_piece)`:
      `None` when either argument is `None`; `True` when the displaced
      piece has the mover's colour and the target cell is the requested
      square; `None` otherwise. It never answers `False`. */
  function SameColorPiece(p: Params, targetIndex: Option<int>, replaced: Option<string>): (r: Result<PyCheck>)
    ensures r != Ok(PyFalse)
    ensures r.Raise? ==> r.exc == IndexError
    ensures targetIndex.None? || replaced.None? ==> r == Ok(PyNone)
    ensures r == Ok(PyTrue) ==> |replaced.value| > 0 && replaced.value[0] == MoverColour(p)
  {
    if targetIndex.None? then Ok(PyNone)
    else if replaced.None? then Ok(PyNone)
    else
      match PyIndex(p.cellName, targetIndex.value)
      case None => Raise(IndexError)
      case Some(targetCell) =>
        if |replaced.value| == 0 then Raise(IndexError)
        else if replaced.value[0] == MoverColour(p) && p.move == targetCell then Ok(PyTrue)
        else Ok(PyNone)
  }

  /** At the index `list.index` finds for the requested square, the second
      conjunct always holds: the check fires exactly when the displaced
      piece has the mover's colour, and never for an empty square. */
  lemma SameColorAtTarget(p: Params, replaced: string)
    requires WellFormed(p) && p.move in p.cellName
    requires |replaced| > 0
    ensures var r := SameColorPiece(p, Some(IndexOf(p.cellName, p.move).value), Some(replaced));
      r.Ok? && (r.value == PyTrue <==> replaced[0] == MoverColour(p))
    ensures SameColorPiece(p, Some(IndexOf(p.cellName, p.move).value), Some(Blank)) == Ok(PyNone)
  {
  }

  // ---------------------------------------------------------------------
  // check_for_occupied_squares

  /** `check_for_occupied_squares(name)`: `False` when the cell of that
      square holds a piece of the mover's colour, `None` otherwise;
      `list.index` raises for a string that is no square name. */
  function OccupiedSquare(p: Params, name: string): (r: Result<PyCheck>)
    ensures r != Ok(PyTrue)
    ensures r == Raise(ValueError) <==> name !in p.cellName
  {
    match IndexOf(p.cellName, name)
    case None => Raise(ValueError)
    case Some(i) =>
      if i >= |p.savedGame| || |p.savedGame[i]| == 0 then Raise(IndexError)
      else if MoverColour(p) == p.savedGame[i][0] then Ok(PyFalse)
      else Ok(PyNone)
  }

  /** On a well-formed board the check reads the cell of that very square:
      `False` exactly for a friendly piece, so never for an empty square or
      an enemy piece. */
  lemma OccupiedSquareFacts(p: Params, s: Sq)
    requires WellFormed(p) && OnBoard(s)
    requires |p.savedGame[Index(s)]| > 0
    ensures OccupiedSquare(p, Name(s)).Ok?
    ensures OccupiedSquare(p, Name(s)) == Ok(PyFalse) <==> p.savedGame[Index(s)][0] == MoverColour(p)
  {
    IndexOfName(s);
  }

  // ---------------------------------------------------------------------
  // jumping_over_pieces


  /** Python's `range(lo, hi)`. */
  function Range(lo: int, hi: int): (r: seq<int>)
    ensures |r| == (if lo < hi then hi - lo else 0)
    ensures forall k :: 0 <= k < |r| ==> r[k] == lo + k
  {
    seq(if lo < hi then hi - lo else 0, k => lo + k)
  }

  /** `row_labels.index(name[0])`: the file index. */
  function FileLabel(name: string): (f: int)
    requires IsSquareName(name)
    ensures f == SquareOf(name).file
  {
    IndexOf(Files, name[0]).value
  }

  /** `column_labels.index(name[1])` over `"12345678"`: the rank minus one,
      which is `7 - row`. */
  function RankLabel(name: string): (c: int)
    requires IsSquareName(name)
    ensures c == 7 - SquareOf(name).row
  {
    var s := SquareOf(name);
    RankDescChar(s.row);
    RankAscChar(7 - s.row);
    LabelIndices(7 - s.row);
    IndexOf(RanksAsc, name[1]).value
  }

  /** `row_labels[f] + column_labels[c]`. */
  function AscName(f: int, c: int): (r: string)
    requires 0 <= f < 8 && 0 <= c < 8
  {
    [Files[f], RanksAsc[c]]
  }

  lemma AscNameIsName(f: int, c: int)
    requires 0 <= f < 8 && 0 <= c < 8
    ensures AscName(f, c) == Name(Sq(f, 7 - c))
    ensures IndexOf(Table(), AscName(f, c)) == Some(Index(Sq(f, 7 - c)))
  {
    RankDescChar(7 - c);
    RankAscChar(c);
    IndexOfName(Sq(f, 7 - c));
  }

  /** The closing loop: `True` at the first listed square whose cell is not
      `" "`, `None` when all are empty. */
  function AnyOccupied(p: Params, names: seq<string>): (r: Result<PyCheck>)
    ensures r != Ok(PyFalse)
  {
    if |names| == 0 then Ok(PyNone)
    else
      match IndexOf(p.cellName, names[0])
      case None => Raise(ValueError)
      case Some(i) =>
        if i >= |p.savedGame| then Raise(IndexError)
        else if p.savedGame[i] != Blank then Ok(PyTrue)
        else AnyOccupied(p, names[1..])
  }

  predicate LabelPair(x: (int, int)) {
    0 <= x.0 < 8 && 0 <= x.1 < 8
  }

  /** The `(row, col)` label-index pairs of `squares_to_check`: file index
      and ascending rank index. Along a file the ranks strictly between,
      along a rank the files strictly between, on an equal-distance
      diagonal the two ascending ranges zipped together; `None` when the
      squares are not aligned. */
  function Path(currentRow: int, targetRow: int, currentColumn: int, targetColumn: int): (r: Option<seq<(int, int)>>)
    requires 0 <= currentRow < 8 && 0 <= targetRow < 8 && 0 <= currentColumn < 8 && 0 <= targetColumn < 8
    ensures r.Some? ==> forall k :: 0 <= k < |r.value| ==> LabelPair(r.value[k])
  {
    var rowsBetween := Range(Min(currentRow, targetRow) + 1, Max(currentRow, targetRow));
    var columnsBetween := Range(Min(currentColumn, targetColumn) + 1, Max(currentColumn, targetColumn));
    if currentRow == targetRow then
      Some(seq(|columnsBetween|, k requires 0 <= k < |columnsBetween| => (currentRow, columnsBetween[k])))
    else if currentColumn == targetColumn then
      Some(seq(|rowsBetween|, k requires 0 <= k < |rowsBetween| => (rowsBetween[k], currentColumn)))
    else if Abs(currentRow - targetRow) == Abs(currentColumn - targetColumn) then
      var n := Min(|rowsBetween|, |columnsBetween|);
      Some(seq(n, k requires 0 <= k < n => (rowsBetween[k], columnsBetween[k])))
    else
      None
  }

  function PairName(x: (int, int)): (r: string)
    requires LabelPair(x)
  {
    AscName(x.0, x.1)
  }

  /** `row_labels[row] + column_labels[col]` for every pair. */
  function LabelNames(pairs: seq<(int, int)>): (r: seq<string>)
    requires forall k :: 0 <= k < |pairs| ==> LabelPair(pairs[k])
    ensures |r| == |pairs|
  {
    seq(|pairs|, k requires 0 <= k < |pairs| => PairName(pairs[k]))
  }

  /** `jumping_over_pieces(current_position)` against the target
      `move.move`. Knights (second token letter `n`) are never blocked. A
      move along a file, a rank, or an equal-distance diagonal is blocked
      when a listed square between the two is not empty; any other move is
      refused outright (`True`). */
  function JumpingOverPieces(p: Params, origin: string): (r: Result<PyCheck>)
    requires IsSquareName(origin) && IsSquareName(p.move)
    ensures r != Ok(PyFalse)
  {
    var token := DeterminePieceColor(p);
    if |token| < 2 then Raise(IndexError)
    else if token[1] == 'n' then Ok(PyNone)
    else SightCheck(p, Path(FileLabel(origin), FileLabel(p.move), RankLabel(origin), RankLabel(p.move)))
  }

  /** The end of `jumping_over_pieces` once the path is known: `True`
      without a path, else the occupancy loop over its squares. */
  function SightCheck(p: Params, path: Option<seq<(int, int)>>): (r: Result<PyCheck>)
    requires path.Some? ==> forall k :: 0 <= k < |path.value| ==> LabelPair(path.value[k])
    ensures r != Ok(PyFalse)
    ensures path.None? ==> r == Ok(PyTrue)
  {
    match path
    case None => Ok(PyTrue)
    case Some(pairs) => AnyOccupied(p, LabelNames(pairs))
  }

  // ---------------------------------------------------------------------
  // Properties of the line-of-sight check

  /** A cell that holds something. */
  predicate Occupied(board: seq<string>, s: Sq)
    requires |board| == 64 && OnBoard(s)
  {
    board[Index(s)] != Blank
  }

  /** The square a label pair names: ascending rank index `c` is row `7 - c`. */
  function PairSquare(x: (int, int)): (s: Sq)
    requires LabelPair(x)
    ensures OnBoard(s)
  {
    Sq(x.0, 7 - x.1)
  }

  /** One of the listed squares holds something. */
  predicate SomeOccupied(board: seq<string>, pairs: seq<(int, int)>)
    requires |board| == 64 && forall k :: 0 <= k < |pairs| ==> LabelPair(pairs[k])
  {
    exists k :: 0 <= k < |pairs| && Occupied(board, PairSquare(pairs[k]))
  }

  /** `SomeOccupied` of a non-empty list: the head, or the rest. */
  lemma SomeOccupiedCons(board: seq<string>, pairs: seq<(int, int)>)
    requires |board| == 64 && forall k :: 0 <= k < |pairs| ==> LabelPair(pairs[k])
    requires |pairs| > 0
    ensures SomeOccupied(board, pairs) <==>
      Occupied(board, PairSquare(pairs[0])) || SomeOccupied(board, pairs[1..])
  {
    if SomeOccupied(board, pairs) {
      var k :| 0 <= k < |pairs| && Occupied(board, PairSquare(pairs[k]));
      if k > 0 {
        assert pairs[1..][k - 1] == pairs[k];
      }
    }
    if SomeOccupied(board, pairs[1..]) {
      var k :| 0 <= k < |pairs[1..]| && Occupied(board, PairSquare(pairs[1..][k]));
      assert pairs[k + 1] == pairs[1..][k];
    }
  }

  /** One turn of the closing loop on the real table: `True` at an
      occupied head, otherwise the loop over the rest. */
  lemma AnyOccupiedHead(p: Params, pairs: seq<(int, int)>)
    requires WellFormed(p) && |pairs| > 0
    requires forall k :: 0 <= k < |pairs| ==> LabelPair(pairs[k])
    ensures Occupied(p.savedGame, PairSquare(pairs[0])) ==> AnyOccupied(p, LabelNames(pairs)) == Ok(PyTrue)
    ensures !Occupied(p.savedGame, PairSquare(pairs[0])) ==>
      AnyOccupied(p, LabelNames(pairs)) == AnyOccupied(p, LabelNames(pairs[1..]))
  {
    var names := LabelNames(pairs);
    LabelNamesCons(pairs);
    AscNameIsName(pairs[0].0, pairs[0].1);
    assert IndexOf(p.cellName, names[0]) == Some(Index(PairSquare(pairs[0])));
  }

  lemma LabelNamesCons(pairs: seq<(int, int)>)
    requires |pairs| > 0 && forall k :: 0 <= k < |pairs| ==> LabelPair(pairs[k])
    ensures LabelNames(pairs)[0] == AscName(pairs[0].0, pairs[0].1)
    ensures LabelNames(pairs)[1..] == LabelNames(pairs[1..])
  {
  }

  /** The closing loop reports `True` exactly when one of the listed cells
      is occupied, and never raises on the real table. */
  lemma {:induction false} AnyOccupiedFacts(p: Params, pairs: seq<(int, int)>)
    requires WellFormed(p)
    requires forall k :: 0 <= k < |pairs| ==> LabelPair(pairs[k])
    ensures AnyOccupied(p, LabelNames(pairs)).Ok?
    ensures AnyOccupied(p, LabelNames(pairs)).value == PyTrue <==> SomeOccupied(p.savedGame, pairs)
  {
    if |pairs| > 0 {
      AnyOccupiedHead(p, pairs);
      AnyOccupiedFacts(p, pairs[1..]);
      SomeOccupiedCons(p.savedGame, pairs);
    }
  }

  /** Along a file the path lists the ascending ranks strictly between. */
  lemma PathAlongFile(cr: int, tr: int, cc: int, tc: int)
    requires 0 <= cr < 8 && 0 <= tr < 8 && 0 <= cc < 8 && 0 <= tc < 8
    requires cr == tr
    ensures Path(cr, tr, cc, tc).Some?
    ensures |Path(cr, tr, cc, tc).value| == (if cc == tc then 0 else Max(cc, tc) - Min(cc, tc) - 1)
    ensures forall k :: 0 <= k < |Path(cr, tr, cc, tc).value| ==>
      Path(cr, tr, cc, tc).value[k] == (cr, Min(cc, tc) + 1 + k)
  {
  }

  /** Along a rank the path lists the files strictly between. */
  lemma PathAlongRank(cr: int, tr: int, cc: int, tc: int)
    requires 0 <= cr < 8 && 0 <= tr < 8 && 0 <= cc < 8 && 0 <= tc < 8
    requires cr != tr && cc == tc
    ensures Path(cr, tr, cc, tc).Some?
    ensures |Path(cr, tr, cc, tc).value| == Max(cr, tr) - Min(cr, tr) - 1
    ensures forall k :: 0 <= k < |Path(cr, tr, cc, tc).value| ==>
      Path(cr, tr, cc, tc).value[k] == (Min(cr, tr) + 1 + k, cc)
  {
  }

  /** On a diagonal the path pairs the `k`-th file and the `k`-th rank
      above the lower ones. */
  lemma PathDiagonal(cr: int, tr: int, cc: int, tc: int)
    requires 0 <= cr < 8 && 0 <= tr < 8 && 0 <= cc < 8 && 0 <= tc < 8
    requires cr != tr && cc != tc && Abs(cr - tr) == Abs(cc - tc)
    ensures Path(cr, tr, cc, tc).Some?
    ensures |Path(cr, tr, cc, tc).value| == Abs(cr - tr) - 1
    ensures forall k :: 0 <= k < |Path(cr, tr, cc, tc).value| ==>
      Path(cr, tr, cc, tc).value[k] == (Min(cr, tr) + 1 + k, Min(cc, tc) + 1 + k)
  {
  }

  /** Neither file, rank nor diagonal: no path. */
  lemma PathMisaligned(cr: int, tr: int, cc: int, tc: int)
    requires 0 <= cr < 8 && 0 <= tr < 8 && 0 <= cc < 8 && 0 <= tc < 8
    requires cr != tr && cc != tc && Abs(cr - tr) != Abs(cc - tc)
    ensures Path(cr, tr, cc, tc).None?
  {
  }

  /** A piece that is not a knight, with its origin and target squares. */
  predicate Slider(p: Params, origin: string)
  {
    && WellFormed(p)
    && IsSquareName(origin) && IsSquareName(p.move)
    && |p.pieceMoved| > 0 && p.pieceMoved[0] != 'n'
  }

  /** For a non-knight the check is the occupancy loop over the path of the
      two squares, or `True` when there is no path. */
  lemma JumpingUnfold(p: Params, origin: string)
    requires Slider(p, origin)
    ensures var o, t := SquareOf(origin), SquareOf(p.move);
      var path := Path(o.file, t.file, 7 - o.row, 7 - t.row);
      JumpingOverPieces(p, origin) == SightCheck(p, path)
  {
    var token := DeterminePieceColor(p);
    assert token[1..][0] == p.pieceMoved[0];
    var o, t := SquareOf(origin), SquareOf(p.move);
    var path := Path(FileLabel(origin), FileLabel(p.move), RankLabel(origin), RankLabel(p.move));
    assert path == Path(o.file, t.file, 7 - o.row, 7 - t.row);
  }

  /** Along a path the check never raises on the real table and reports
      `True` exactly when a listed square is occupied. */
  lemma SightCheckFacts(p: Params, path: Option<seq<(int, int)>>)
    requires WellFormed(p) && path.Some?
    requires forall k :: 0 <= k < |path.value| ==> LabelPair(path.value[k])
    ensures SightCheck(p, path).Ok?
    ensures SightCheck(p, path).value == PyTrue <==> SomeOccupied(p.savedGame, path.value)
  {
    AnyOccupiedFacts(p, path.value);
  }

  /** Knights are never blocked. */
  lemma JumpingKnight(p: Params, origin: string)
    requires IsSquareName(origin) && IsSquareName(p.move)
    requires |p.pieceMoved| > 0 && p.pieceMoved[0] == 'n'
    ensures JumpingOverPieces(p, origin) == Ok(PyNone)
  {
    assert DeterminePieceColor(p)[1] == p.pieceMoved[0];
  }

  /** Any other piece is refused when origin and target share no file, no
      rank and no diagonal, whatever the board. */
  lemma JumpingMisaligned(p: Params, origin: string)
    requires Slider(p, origin)
    requires var o, t := SquareOf(origin), SquareOf(p.move);
      o.file != t.file && o.row != t.row && Abs(o.file - t.file) != Abs(o.row - t.row)
    ensures JumpingOverPieces(p, origin) == Ok(PyTrue)
  {
    JumpingUnfold(p, origin);
    var o, t := SquareOf(origin), SquareOf(p.move);
    PathMisaligned(o.file, t.file, 7 - o.row, 7 - t.row);
  }

  /** The `k`-th square from `o` toward `t` on their common line. */
  function Toward(o: Sq, t: Sq, k: int): (r: Sq) {
    Sq(o.file + k * Sign(t.file - o.file), o.row + k * Sign(t.row - o.row))
  }

  /** Some square strictly between `o` and `t` on their common line holds
      something: what a sliding piece may not pass. */
  predicate Obstructed(board: seq<string>, o: Sq, t: Sq)
    requires |board| == 64
  {
    exists k :: 0 < k < Cheb(o, t) && OnBoard(Toward(o, t, k)) && Occupied(board, Toward(o, t, k))
  }

  /** Along a file the path, read as squares, runs down the file from just
      below the higher of the two squares. */
  lemma FilePathSquares(o: Sq, t: Sq)
    requires OnBoard(o) && OnBoard(t) && o.file == t.file
    ensures var path := Path(o.file, t.file, 7 - o.row, 7 - t.row);
      && path.Some?
      && |path.value| == (if o.row == t.row then 0 else Max(o.row, t.row) - Min(o.row, t.row) - 1)
      && forall k :: 0 <= k < |path.value| ==> PairSquare(path.value[k]) == Sq(o.file, Max(o.row, t.row) - 1 - k)
  {
    PathAlongFile(o.file, t.file, 7 - o.row, 7 - t.row);
  }

  /** Along a file the `k`-th square toward `t` is `k` ranks nearer `t`. */
  lemma TowardOnFile(o: Sq, t: Sq, k: int)
    requires o.file == t.file
    ensures Toward(o, t, k) == Sq(o.file, if t.row > o.row then o.row + k else if t.row < o.row then o.row - k else o.row)
  {
  }

  /** Along a rank the `k`-th square toward `t` is `k` files nearer `t`. */
  lemma TowardOnRank(o: Sq, t: Sq, k: int)
    requires o.row == t.row
    ensures Toward(o, t, k) == Sq(if t.file > o.file then o.file + k else if t.file < o.file then o.file - k else o.file, o.row)
  {
  }

  lemma FileOccupied(board: seq<string>, pairs: seq<(int, int)>, o: Sq, t: Sq)
    requires |board| == 64 && OnBoard(o) && OnBoard(t) && o.file == t.file
    requires forall k :: 0 <= k < |pairs| ==> LabelPair(pairs[k])
    requires |pairs| == (if o.row == t.row then 0 else Max(o.row, t.row) - Min(o.row, t.row) - 1)
    requires forall k :: 0 <= k < |pairs| ==> PairSquare(pairs[k]) == Sq(o.file, Max(o.row, t.row) - 1 - k)
    ensures SomeOccupied(board, pairs) <==> Obstructed(board, o, t)
  {
    if Obstructed(board, o, t) {
      var k :| 0 < k < Cheb(o, t) && OnBoard(Toward(o, t, k)) && Occupied(board, Toward(o, t, k));
      TowardOnFile(o, t, k);
      var row := Toward(o, t, k).row;
      assert PairSquare(pairs[Max(o.row, t.row) - 1 - row]) == Toward(o, t, k);
    }
    if SomeOccupied(board, pairs) {
      var j :| 0 <= j < |pairs| && Occupied(board, PairSquare(pairs[j]));
      var k := if t.row > o.row then t.row - 1 - j - o.row else j + 1;
      TowardOnFile(o, t, k);
      assert 0 < k < Cheb(o, t) && Toward(o, t, k) == PairSquare(pairs[j]);
    }
  }

  /** Along a file the squares examined are exactly those strictly between
      the two ranks, so a neighbouring target or the origin itself is never
      blocked. */
  lemma JumpingAlongFile(p: Params, origin: string)
    requires Slider(p, origin)
    requires SquareOf(origin).file == SquareOf(p.move).file
    ensures var r := JumpingOverPieces(p, origin);
      r.Ok? && (r.value == PyTrue <==> Obstructed(p.savedGame, SquareOf(origin), SquareOf(p.move)))
  {
    JumpingUnfold(p, origin);
    var o, t := SquareOf(origin), SquareOf(p.move);
    FilePathSquares(o, t);
    var pairs := Path(o.file, t.file, 7 - o.row, 7 - t.row).value;
    SightCheckFacts(p, Path(o.file, t.file, 7 - o.row, 7 - t.row));
    FileOccupied(p.savedGame, pairs, o, t);
  }

  /** Along a rank the path, read as squares, runs along the rank from just
      right of the leftmost of the two squares. */
  lemma RankPathSquares(o: Sq, t: Sq)
    requires OnBoard(o) && OnBoard(t) && o.file != t.file && o.row == t.row
    ensures var path := Path(o.file, t.file, 7 - o.row, 7 - t.row);
      && path.Some?
      && |path.value| == Max(o.file, t.file) - Min(o.file, t.file) - 1
      && forall k :: 0 <= k < |path.value| ==> PairSquare(path.value[k]) == Sq(Min(o.file, t.file) + 1 + k, o.row)
  {
    PathAlongRank(o.file, t.file, 7 - o.row, 7 - t.row);
  }

  lemma RankOccupied(board: seq<string>, pairs: seq<(int, int)>, o: Sq, t: Sq)
    requires |board| == 64 && OnBoard(o) && OnBoard(t) && o.row == t.row
    requires forall k :: 0 <= k < |pairs| ==> LabelPair(pairs[k])
    requires |pairs| == Max(o.file, t.file) - Min(o.file, t.file) - 1
    requires forall k :: 0 <= k < |pairs| ==> PairSquare(pairs[k]) == Sq(Min(o.file, t.file) + 1 + k, o.row)
    ensures SomeOccupied(board, pairs) <==> Obstructed(board, o, t)
  {
    if Obstructed(board, o, t) {
      var k :| 0 < k < Cheb(o, t) && OnBoard(Toward(o, t, k)) && Occupied(board, Toward(o, t, k));
      TowardOnRank(o, t, k);
      var file := Toward(o, t, k).file;
      assert PairSquare(pairs[file - Min(o.file, t.file) - 1]) == Toward(o, t, k);
    }
    if SomeOccupied(board, pairs) {
      var j :| 0 <= j < |pairs| && Occupied(board, PairSquare(pairs[j]));
      var k := if t.file > o.file then j + 1 else o.file - t.file - 1 - j;
      TowardOnRank(o, t, k);
      assert 0 < k < Cheb(o, t) && Toward(o, t, k) == PairSquare(pairs[j]);
    }
  }

  /** Along a rank the squares examined are exactly those strictly between
      the two files. */
  lemma JumpingAlongRank(p: Params, origin: string)
    requires Slider(p, origin)
    requires SquareOf(origin).file != SquareOf(p.move).file
    requires SquareOf(origin).row == SquareOf(p.move).row
    ensures var r := JumpingOverPieces(p, origin);
      r.Ok? && (r.value == PyTrue <==> Obstructed(p.savedGame, SquareOf(origin), SquareOf(p.move)))
  {
    JumpingUnfold(p, origin);
    var o, t := SquareOf(origin), SquareOf(p.move);
    RankPathSquares(o, t);
    var pairs := Path(o.file, t.file, 7 - o.row, 7 - t.row).value;
    SightCheckFacts(p, Path(o.file, t.file, 7 - o.row, 7 - t.row));
    RankOccupied(p.savedGame, pairs, o, t);
  }

  /** The `k`-th square the diagonal check examines: `k` files right of the
      leftmost file and `k` ranks above the lower rank. */
  function ZipSquare(o: Sq, t: Sq, k: int): (r: Sq) {
    Sq(Min(o.file, t.file) + k, Max(o.row, t.row) - k)
  }

  /** The diagonal path, read as squares: the `ZipSquare`s for `k` from 1
      to the distance minus one. */
  lemma DiagonalPathSquares(o: Sq, t: Sq)
    requires OnBoard(o) && OnBoard(t)
    requires o.file != t.file && o.row != t.row && Abs(o.file - t.file) == Abs(o.row - t.row)
    ensures var path := Path(o.file, t.file, 7 - o.row, 7 - t.row);
      path.Some? && |path.value| == Abs(o.file - t.file) - 1 &&
      forall k :: 0 <= k < |path.value| ==> PairSquare(path.value[k]) == ZipSquare(o, t, k + 1)
  {
    PathDiagonal(o.file, t.file, 7 - o.row, 7 - t.row);
  }

  /** Some `ZipSquare` strictly between the two ends is occupied. */
  predicate ZipBlocked(board: seq<string>, o: Sq, t: Sq)
    requires |board| == 64
  {
    exists k :: 0 < k < Abs(o.file - t.file) && OnBoard(ZipSquare(o, t, k)) && Occupied(board, ZipSquare(o, t, k))
  }

  /** Shifting the index by one between the path and the `ZipSquare`s. */
  lemma ZipOccupied(board: seq<string>, pairs: seq<(int, int)>, o: Sq, t: Sq)
    requires |board| == 64
    requires forall k :: 0 <= k < |pairs| ==> LabelPair(pairs[k])
    requires |pairs| == Abs(o.file - t.file) - 1
    requires forall k :: 0 <= k < |pairs| ==> PairSquare(pairs[k]) == ZipSquare(o, t, k + 1)
    ensures SomeOccupied(board, pairs) <==> ZipBlocked(board, o, t)
  {
    if ZipBlocked(board, o, t) {
      var k :| 0 < k < Abs(o.file - t.file) && OnBoard(ZipSquare(o, t, k)) && Occupied(board, ZipSquare(o, t, k));
      assert PairSquare(pairs[k - 1]) == ZipSquare(o, t, k);
    }
    if SomeOccupied(board, pairs) {
      var k :| 0 <= k < |pairs| && Occupied(board, PairSquare(pairs[k]));
      assert PairSquare(pairs[k]) == ZipSquare(o, t, k + 1);
    }
  }

  /** On a diagonal the path is blocked exactly when a `ZipSquare`
      strictly between the two ends is occupied. */
  lemma DiagonalPathBlocked(board: seq<string>, o: Sq, t: Sq)
    requires |board| == 64 && OnBoard(o) && OnBoard(t)
    requires o.file != t.file && o.row != t.row && Abs(o.file - t.file) == Abs(o.row - t.row)
    ensures var path := Path(o.file, t.file, 7 - o.row, 7 - t.row);
      path.Some? && (SomeOccupied(board, path.value) <==> ZipBlocked(board, o, t))
  {
    DiagonalPathSquares(o, t);
    ZipOccupied(board, Path(o.file, t.file, 7 - o.row, 7 - t.row).value, o, t);
  }

  /** On a diagonal the squares examined are the `ZipSquare`s for `k` from 1
      to the distance minus one, whichever way the diagonal runs. */
  lemma JumpingAlongDiagonal(p: Params, origin: string)
    requires Slider(p, origin)
    requires var o, t := SquareOf(origin), SquareOf(p.move);
      o.file != t.file && o.row != t.row && Abs(o.file - t.file) == Abs(o.row - t.row)
    ensures var r := JumpingOverPieces(p, origin);
      r.Ok? && (r.value == PyTrue <==> ZipBlocked(p.savedGame, SquareOf(origin), SquareOf(p.move)))
  {
    var o, t := SquareOf(origin), SquareOf(p.move);
    JumpingUnfold(p, origin);
    DiagonalPathBlocked(p.savedGame, o, t);
    SightCheckFacts(p, Path(o.file, t.file, 7 - o.row, 7 - t.row));
  }

  /** A diagonal on which the file grows as the rank grows (the a1-h8
      direction; rows count down from rank 8). */
  predicate Rising(o: Sq, t: Sq) {
    o.file != t.file && t.file - o.file == o.row - t.row
  }

  /** A diagonal on which the file grows as the rank falls (the a8-h1
      direction). */
  predicate Falling(o: Sq, t: Sq) {
    o.file != t.file && t.file - o.file == t.row - o.row
  }

  /** On a rising diagonal the `ZipSquare`s are the squares from `o`
      toward `t`, counted from whichever end is leftmost. */
  lemma ZipIsToward(board: seq<string>, o: Sq, t: Sq)
    requires |board| == 64 && OnBoard(o) && OnBoard(t) && Rising(o, t)
    ensures ZipBlocked(board, o, t) <==> Obstructed(board, o, t)
  {
    var d := Abs(t.file - o.file);
    assert Cheb(o, t) == d;
    forall k | 0 < k < d
      ensures Toward(o, t, k) == ZipSquare(o, t, if t.file > o.file then k else d - k)
    {
    }
    if Obstructed(board, o, t) {
      var k :| 0 < k < Cheb(o, t) && OnBoard(Toward(o, t, k)) && Occupied(board, Toward(o, t, k));
      var j := if t.file > o.file then k else d - k;
      assert ZipSquare(o, t, j) == Toward(o, t, k);
    }
    if ZipBlocked(board, o, t) {
      var j :| 0 < j < Abs(o.file - t.file) && OnBoard(ZipSquare(o, t, j)) && Occupied(board, ZipSquare(o, t, j));
      var k := if t.file > o.file then j else d - j;
      assert Toward(o, t, k) == ZipSquare(o, t, j);
    }
  }

  /** The corner squares of the square region two squares span: bottom-left
      (lowest file, lowest rank; `row` counts from rank 8) and top-right as
      the board is printed. */
  function BottomLeft(o: Sq, t: Sq): (r: Sq) {
    Sq(Min(o.file, t.file), Max(o.row, t.row))
  }

  function TopRight(o: Sq, t: Sq): (r: Sq) {
    Sq(Max(o.file, t.file), Min(o.row, t.row))
  }

  /** The `ZipSquare`s always run between the two other corners of the
      region, along the a1-h8 direction. */
  lemma ZipIsCorners(board: seq<string>, o: Sq, t: Sq)
    requires |board| == 64 && OnBoard(o) && OnBoard(t)
    requires o.file != t.file && Abs(t.file - o.file) == Abs(t.row - o.row)
    ensures ZipBlocked(board, o, t) <==> Obstructed(board, BottomLeft(o, t), TopRight(o, t))
  {
    var a, b := BottomLeft(o, t), TopRight(o, t);
    assert Cheb(a, b) == Abs(t.file - o.file);
    forall k | 0 < k < Abs(t.file - o.file) ensures Toward(a, b, k) == ZipSquare(o, t, k) {
    }
    if ZipBlocked(board, o, t) {
      var k :| 0 < k < Abs(o.file - t.file) && OnBoard(ZipSquare(o, t, k)) && Occupied(board, ZipSquare(o, t, k));
      assert Toward(a, b, k) == ZipSquare(o, t, k);
    }
  }

  /** What the line-of-sight check actually inspects between aligned
      squares: the squares in between, except on an a8-h1 diagonal, where
      it inspects the interior of the crossing diagonal instead. */
  predicate SightBlocked(board: seq<string>, o: Sq, t: Sq)
    requires |board| == 64
  {
    if Falling(o, t) then Obstructed(board, BottomLeft(o, t), TopRight(o, t)) else Obstructed(board, o, t)
  }

  /** Two squares on one file, rank or diagonal. */
  predicate Aligned(o: Sq, t: Sq) {
    o.file == t.file || o.row == t.row || Abs(t.file - o.file) == Abs(t.row - o.row)
  }

  /** When file and rank grow together (the a1-h8 direction) the examined
      squares are the true interior of the diagonal. */
  lemma JumpingRisingDiagonal(p: Params, origin: string)
    requires Slider(p, origin)
    requires Rising(SquareOf(origin), SquareOf(p.move))
    ensures var r := JumpingOverPieces(p, origin);
      r.Ok? && (r.value == PyTrue <==> Obstructed(p.savedGame, SquareOf(origin), SquareOf(p.move)))
  {
    JumpingAlongDiagonal(p, origin);
    ZipIsToward(p.savedGame, SquareOf(origin), SquareOf(p.move));
  }

  /** On the a8-h1 direction the check does not look at the squares in
      between but at the interior of the crossing diagonal of the same
      region of the board. */
  lemma JumpingFallingDiagonal(p: Params, origin: string)
    requires Slider(p, origin)
    requires Falling(SquareOf(origin), SquareOf(p.move))
    ensures var o, t := SquareOf(origin), SquareOf(p.move);
      var r := JumpingOverPieces(p, origin);
      r.Ok? && (r.value == PyTrue <==> Obstructed(p.savedGame, BottomLeft(o, t), TopRight(o, t)))
  {
    JumpingAlongDiagonal(p, origin);
    ZipIsCorners(p.savedGame, SquareOf(origin), SquareOf(p.move));
  }

  /** The whole line-of-sight check for a piece other than a knight: it
      never raises on a well-formed request, refuses every unaligned move,
      and otherwise refuses exactly when `SightBlocked` holds. */
  lemma JumpingAligned(p: Params, origin: string)
    requires Slider(p, origin)
    ensures var o, t := SquareOf(origin), SquareOf(p.move);
      var r := JumpingOverPieces(p, origin);
      r.Ok? && (r.value == PyTrue <==> !Aligned(o, t) || SightBlocked(p.savedGame, o, t))
  {
    var o, t := SquareOf(origin), SquareOf(p.move);
    if o.file == t.file {
      JumpingAlongFile(p, origin);
    } else if o.row == t.row {
      JumpingAlongRank(p, origin);
    } else if Rising(o, t) {
      JumpingRisingDiagonal(p, origin);
    } else if Falling(o, t) {
      JumpingFallingDiagonal(p, origin);
    } else {
      JumpingMisaligned(p, origin);
    }
  }

  /** A bishop moving from a4 to d1 has b3 and c2 in its way, but the check
      inspects b2 and c3 instead. */
  lemma FallingDiagonalExample()
    ensures Name(Sq(0, 4)) == "a4" && Name(Sq(3, 7)) == "d1" && Falling(Sq(0, 4), Sq(3, 7))
    ensures Toward(Sq(0, 4), Sq(3, 7), 1) == Sq(1, 5) && Name(Sq(1, 5)) == "b3"
    ensures Toward(Sq(0, 4), Sq(3, 7), 2) == Sq(2, 6) && Name(Sq(2, 6)) == "c2"
    ensures BottomLeft(Sq(0, 4), Sq(3, 7)) == Sq(0, 7) && TopRight(Sq(0, 4), Sq(3, 7)) == Sq(3, 4)
    ensures Toward(Sq(0, 7), Sq(3, 4), 1) == Sq(1, 6) && Name(Sq(1, 6)) == "b2"
    ensures Toward(Sq(0, 7), Sq(3, 4), 2) == Sq(2, 5) && Name(Sq(2, 5)) == "c3"
  {
  }
}
