/** The single-file engine of `terminalchess.py`: `Piece.move_piece` moves
    the piece on a copy of the board with `pop`/`insert`, and
    `Piece.validate_move` runs one same-colour check and a move generator.
    Its king and knight generators are the modular engine's code; its
    rook, bishop and queen generators drop the squares that hold a piece
    of the mover's colour but, unlike the modular engine, keep sliding
    past any piece; its pawn offers nothing when the square one step
    ahead holds a piece of the mover's colour. The request reuses the
    modular engine's `Params`: `Piece(player, move, chess_pieces,
    cell_name)` carries the same six values. */
module Terminal {
  import opened Common
  import opened Notation
  import opened Geometry
  import opened Tokens
  import opened Restricted
  import opened Pieces
  import opened Moves

  /** `Parameters`: the requested square, the name of the target cell
      (`position`), the piece the move displaces, the coloured token, the
      board before the move, and the square-name table. */
  datatype Checks = Checks(
    move: string,
    position: string,
    replaced: string,
    playersPiece: string,
    board: seq<string>,
    squareName: seq<string>)

  /** `"w" if players_piece.startswith("w") else "b"`. */
  function PieceColour(c: Checks): (colour: char)
    ensures colour == 'w' || colour == 'b'
    ensures colour == 'w' <==> |c.playersPiece| > 0 && c.playersPiece[0] == 'w'
  {
    if |c.playersPiece| > 0 && c.playersPiece[0] == 'w' then 'w' else 'b'
  }

  // ---------------------------------------------------------------------
  // ValidationForAllPieces

  /** `check_for_same_color_piece`: `False` when the displaced piece has the
      mover's colour and the requested square is the target cell's name,
      `None` (the implicit return) otherwise. An empty displaced string
      raises. */
  function SameColour(c: Checks): (r: Result<PyCheck>)
    ensures r != Ok(PyTrue)
    ensures r.Raise? <==> |c.replaced| == 0
    ensures r == Ok(PyFalse) <==> |c.replaced| > 0 && c.replaced[0] == PieceColour(c) && c.move == c.position
  {
    if |c.replaced| == 0 then Raise(IndexError)
    else if c.replaced[0] == PieceColour(c) && c.move == c.position then Ok(PyFalse)
    else Ok(PyNone)
  }

  /** `check_for_occupied_squares(name)`: `False` when the cell of that name
      holds a piece of the mover's colour on the board before the move,
      `None` otherwise; an unknown name raises `ValueError`, an empty cell
      `IndexError`. */
  function OccupiedCheck(c: Checks, name: string): (r: Result<PyCheck>)
    ensures r != Ok(PyTrue)
    ensures r == Raise(ValueError) <==> name !in c.squareName
  {
    match IndexOf(c.squareName, name)
    case None => Raise(ValueError)
    case Some(k) =>
      if k >= |c.board| || |c.board[k]| == 0 then Raise(IndexError)
      else if c.board[k][0] == PieceColour(c) then Ok(PyFalse)
      else Ok(PyNone)
  }

  /** The inner `if` of the sliding generators, over a whole generated list:
      keeps the names whose check `is not False`, in order; the first
      check that raises ends the generator. */
  function CheckEach(c: Checks, names: seq<string>): (r: Result<seq<string>>)
    ensures r.Ok? ==> |r.value| <= |names|
    ensures r.Ok? ==> forall x :: x in r.value ==> x in names
  {
    if |names| == 0 then Ok([])
    else
      match OccupiedCheck(c, names[0])
      case Raise(e) => Raise(e)
      case Ok(check) =>
        match CheckEach(c, names[1..])
        case Raise(e) => Raise(e)
        case Ok(rest) => if check != PyFalse then Ok([names[0]] + rest) else Ok(rest)
  }

  /** The cell a table name denotes holds a piece of the mover's colour. */
  predicate Own(c: Checks, s: Sq)
    requires |c.board| == 64 && OnBoard(s)
  {
    |c.board[Index(s)]| > 0 && c.board[Index(s)][0] == PieceColour(c)
  }

  /** A board whose every cell holds a token or the blank, with the real
      table. */
  predicate Sound(c: Checks) {
    && c.squareName == Table()
    && |c.board| == 64
    && forall k :: 0 <= k < 64 ==> |c.board[k]| > 0
  }

  /** On a sound board the filter never raises and keeps exactly the listed
      names whose cell does not hold a piece of the mover's colour. */
  lemma {:induction false} CheckEachFacts(c: Checks, names: seq<string>)
    requires Sound(c)
    requires forall k :: 0 <= k < |names| ==> IsSquareName(names[k])
    ensures CheckEach(c, names).Ok?
    ensures forall x :: x in CheckEach(c, names).value <==>
      x in names && !Own(c, SquareOf(x))
  {
    if |names| > 0 {
      var x := names[0];
      SquareNameInTable(x);
      CheckEachFacts(c, names[1..]);
      assert OccupiedCheck(c, x) == (if Own(c, SquareOf(x)) then Ok(PyFalse) else Ok(PyNone));
      forall y ensures y in CheckEach(c, names).value <==> y in names && !Own(c, SquareOf(y)) {
        if y in names && y != x {
          assert y in names[1..];
        }
      }
    }
  }

  // ---------------------------------------------------------------------
  // Generators

  /** `Pawn.get_valid_move` of this engine: the step offset comes from the
      token's colour letter; the one-step square is checked first, and
      when it holds a piece of the mover's colour no move is offered;
      otherwise the same one- or two-step list as the modular pawn. */
  function TerminalPawn(c: Checks, origin: string): (r: Result<seq<string>>)
    requires IsSquareName(origin)
  {
    var o := SquareOf(origin);
    var colour := PieceColour(c);
    match StepName(o, colour)
    case None => Raise(IndexError)
    case Some(one) =>
      match OccupiedCheck(c, one)
      case Raise(e) => Raise(e)
      case Ok(check) =>
        if check == PyFalse then Ok([])
        else
          match PawnFrom(o, colour)
          case None => Raise(IndexError)
          case Some(moves) => Ok(moves)
  }

  /** The non-pawn arms of the `if`/`elif` chain of `Piece.validate_move`
      choosing a generator by the first letter of the requested piece. */
  function TerminalPieceMoves(c: Checks, letter: char, origin: string): (r: Result<seq<string>>)
    requires IsSquareName(origin)
  {
    if letter == 'k' then Ok(KingMoves(origin))
    else if letter == 'q' then CheckEach(c, QueenMoves(origin))
    else if letter == 'r' then CheckEach(c, RookMoves(origin))
    else if letter == 'b' then CheckEach(c, BishopMoves(origin))
    else if letter == 'n' then Ok(KnightMoves(origin))
    else Ok([])
  }

  /** The whole chain; the letters are distinct, so testing the pawn's
      first picks the same arm as the source's order. */
  function TerminalMoves(c: Checks, letter: char, origin: string): (r: Result<seq<string>>)
    requires IsSquareName(origin)
  {
    if letter == 'p' then TerminalPawn(c, origin)
    else TerminalPieceMoves(c, letter, origin)
  }

  // ---------------------------------------------------------------------
  // Piece.validate_move and Piece.move_piece

  /** `Piece.validate_move(square, piece_moved, players_piece,
      position_of_piece, temp_chess_pieces)`: refuses when the same-colour
      check answers `False`, then when the requested square is not among
      the generated moves; otherwise answers the moved board. The checks
      look at the board before the move. */
  function TerminalValidate(p: Params, square: int, replaced: string, token: string,
                            origin: string, moved: seq<string>): (r: Result<Reply>)
    requires IsSquareName(origin)
    ensures r.Ok? ==> r.value.origin == origin
    ensures r.Ok? && r.value.board.Some? ==> r.value.board.value == moved
  {
    match PyIndex(p.cellName, square)
    case None => Raise(IndexError)
    case Some(position) =>
      var c := Checks(p.move, position, replaced, token, p.savedGame, p.cellName);
      match SameColour(c)
      case Raise(e) => Raise(e)
      case Ok(same) =>
        if same == PyFalse then Ok(Reply(None, origin))
        else if |p.pieceMoved| == 0 then Raise(IndexError)
        else
          match TerminalMoves(c, p.pieceMoved[0], origin)
          case Raise(e) => Raise(e)
          case Ok(moves) =>
            if p.move !in moves then Ok(Reply(None, origin))
            else Ok(Reply(Some(moved), origin))
  }

  /** `list.pop(i)`: the removed element and the rest. */
  function Pop<T>(s: seq<T>, i: int): (r: (T, seq<T>))
    requires 0 <= i < |s|
    ensures r.0 == s[i] && |r.1| == |s| - 1
  {
    (s[i], s[..i] + s[i + 1..])
  }

  /** `list.insert(i, x)` for an index inside the list. */
  function Insert<T>(s: seq<T>, i: int, x: T): (r: seq<T>)
    requires 0 <= i <= |s|
    ensures |r| == |s| + 1 && r[i] == x
  {
    s[..i] + [x] + s[i..]
  }

  /** Popping a cell and inserting at the same index overwrites that cell. */
  lemma PopInsert<T>(s: seq<T>, i: int, x: T)
    requires 0 <= i < |s|
    ensures Insert(Pop(s, i).1, i, x) == s[i := x]
  {
    var t := Insert(Pop(s, i).1, i, x);
    forall k | 0 <= k < |s| ensures t[k] == s[i := x][k] {
      if k > i {
        assert t[k] == s[k];
      }
    }
  }

  /** The two `pop`/`insert` pairs of `Piece.move_piece`, with the popped
      piece of the first. */
  function TerminalSwap(board: seq<string>, square: int, position: int, token: string): (r: (seq<string>, string))
    requires 0 <= square < |board| && 0 <= position < |board|
  {
    var (replaced, rest) := Pop(board, square);
    var withToken := Insert(rest, square, token);
    var moved := Insert(Pop(withToken, position).1, position, replaced);
    (moved, replaced)
  }

  /** Both engines move the pieces the same way: the `pop`/`insert` pairs
      compute exactly the modular engine's swap. */
  lemma TerminalSwapIsSwap(board: seq<string>, square: int, position: int, token: string)
    requires 0 <= square < |board| && 0 <= position < |board|
    ensures TerminalSwap(board, square, position, token) == SwapPieces(board, square, position, token)
  {
    var (replaced, rest) := Pop(board, square);
    PopInsert(board, square, token);
    var withToken := Insert(rest, square, token);
    PopInsert(withToken, position, replaced);
  }

  /** `Piece.move_piece`: the same lookups as the modular engine (the
      origin name through `get_piece_position`, `ValueError` for a missing
      token or an unknown square), then `pop`/`insert` twice on a copy:
      the token into the target cell, the displaced piece into the token's
      cell. */
  function TerminalMovePiece(p: Params): (r: Result<Reply>)
    requires WellFormed(p)
  {
    var token := DeterminePieceColor(p);
    match GetPiecePosition(p, p.savedGame)
    case Raise(e) => Raise(e)
    case Ok(origin) =>
      var position := IndexOf(p.savedGame, token).value;
      match IndexOf(p.cellName, p.move)
      case None => Raise(ValueError)
      case Some(square) =>
        var (moved, replaced) := TerminalSwap(p.savedGame, square, position, token);
        TerminalValidate(p, square, replaced, token, origin, moved)
  }

  // ---------------------------------------------------------------------
  // Properties

  /** The checks `validate_move` builds for a request. */
  function ChecksOf(p: Params): (r: Checks)
    requires WellFormed(p) && IsSquareName(p.move)
  {
    Checks(p.move, p.cellName[Index(To(p))], p.savedGame[Index(To(p))],
           DeterminePieceColor(p), p.savedGame, p.cellName)
  }

  /** Past the lookups, `move_piece` is `validate_move` on the modular
      engine's moved board. */
  lemma TerminalUnfold(p: Params)
    requires WellFormed(p) && DeterminePieceColor(p) in p.savedGame && IsSquareName(p.move)
    ensures TerminalMovePiece(p) ==
      TerminalValidate(p, Index(To(p)), p.savedGame[Index(To(p))], DeterminePieceColor(p),
                       Name(From(p)), Moved(p))
  {
    FromFacts(p);
    SquareNameInTable(p.move);
    TerminalSwapIsSwap(p.savedGame, Index(To(p)), TokenCell(p), DeterminePieceColor(p));
  }

  /** On a request, the checks see the real table and board, the target
      cell's name is the requested square, and a cell is `Own` exactly when
      it would be `Friendly` to the modular engine. */
  lemma ChecksOfFacts(p: Params)
    requires Request(p)
    ensures var c := ChecksOf(p);
      && Sound(c) && c.position == p.move
      && PieceColour(c) == MoverColour(p)
      && (Own(c, To(p)) <==> Friendly(p))
  {
    SquareNameInTable(p.move);
    var c := ChecksOf(p);
    assert PieceColour(c) == MoverColour(p);
  }

  /** A sliding generator's filtered list holds a square name exactly when
      the unfiltered one does and its cell is not the mover's. */
  lemma CheckedMember(c: Checks, cs: seq<Sq>, name: string)
    requires Sound(c) && AllOnBoard(cs) && IsSquareName(name)
    ensures CheckEach(c, Names(cs)).Ok?
    ensures name in CheckEach(c, Names(cs)).value <==> SquareOf(name) in cs && !Own(c, SquareOf(name))
  {
    NamesSpellSquares(cs);
    CheckEachFacts(c, Names(cs));
    NamesMembership(cs, name);
  }

  /** `validate_move` on a request refuses a friendly target before any
      generator runs. */
  lemma TerminalRefusesFriendly(p: Params, origin: string, moved: seq<string>)
    requires Request(p) && IsSquareName(origin) && Friendly(p)
    ensures TerminalValidate(p, Index(To(p)), p.savedGame[Index(To(p))],
                             DeterminePieceColor(p), origin, moved) == Ok(Reply(None, origin))
  {
    ChecksOfFacts(p);
    var c := ChecksOf(p);
    assert PyIndex(p.cellName, Index(To(p))) == Some(c.position);
    assert SameColour(c) == Ok(PyFalse);
  }

  /** Past a target that is not friendly, an exception of the generator
      propagates. */
  lemma TerminalGeneratorRaises(p: Params, origin: string, moved: seq<string>)
    requires Request(p) && IsSquareName(origin) && !Friendly(p)
    ensures var r := TerminalValidate(p, Index(To(p)), p.savedGame[Index(To(p))],
                                      DeterminePieceColor(p), origin, moved);
      var m := TerminalMoves(ChecksOf(p), p.pieceMoved[0], origin);
      m.Raise? ==> r == Raise(m.exc)
  {
    ChecksOfFacts(p);
    var c := ChecksOf(p);
    assert PyIndex(p.cellName, Index(To(p))) == Some(c.position);
    assert SameColour(c) == Ok(PyNone);
  }

  /** Past a target that is not friendly, the generated list decides. */
  lemma TerminalGeneratorDecides(p: Params, origin: string, moved: seq<string>)
    requires Request(p) && IsSquareName(origin) && !Friendly(p)
    ensures var r := TerminalValidate(p, Index(To(p)), p.savedGame[Index(To(p))],
                                      DeterminePieceColor(p), origin, moved);
      var m := TerminalMoves(ChecksOf(p), p.pieceMoved[0], origin);
      m.Ok? ==> r == Ok(Reply(if p.move in m.value then Some(moved) else None, origin))
  {
    ChecksOfFacts(p);
    var c := ChecksOf(p);
    assert PyIndex(p.cellName, Index(To(p))) == Some(c.position);
    assert SameColour(c) == Ok(PyNone);
  }

  /** Every generator but the pawn's, read at the requested square when it
      does not hold a piece of the mover's colour: it never raises and
      offers the square exactly when the piece reaches it. */
  lemma TerminalMovesReach(p: Params)
    requires Request(p) && p.pieceMoved[0] != 'p' && !Friendly(p)
    ensures var m := TerminalMoves(ChecksOf(p), p.pieceMoved[0], Name(From(p)));
      m.Ok? && (p.move in m.value <==> Reaches(p.pieceMoved[0], From(p), To(p)))
  {
    FromFacts(p);
    ChecksOfFacts(p);
    var c, o, t, letter := ChecksOf(p), From(p), To(p), p.pieceMoved[0];
    var origin := Name(o);
    if letter == 'k' {
      KingMovesNamed(origin, p.move);
    } else if letter == 'q' {
      CheckedMember(c, QueenTargets(o), p.move);
      QueenReaches(o, t);
    } else if letter == 'r' {
      CheckedMember(c, RookTargets(o), p.move);
      RookReaches(o, t);
    } else if letter == 'b' {
      CheckedMember(c, BishopTargets(o), p.move);
      BishopReaches(o, t);
    } else if letter == 'n' {
      KnightMovesNamed(origin, p.move);
    }
  }

  /** For every piece but the pawn the single-file engine never raises on a
      request and accepts exactly the moves by the piece's rule of movement
      onto a square without a piece of the mover's colour: rooks, bishops
      and queens pass through any piece in between. */
  lemma TerminalDecision(p: Params)
    requires Request(p) && p.pieceMoved[0] != 'p'
    ensures TerminalMovePiece(p).Ok?
    ensures TerminalMovePiece(p).value.board.Some? <==>
      !Friendly(p) && Reaches(p.pieceMoved[0], From(p), To(p))
  {
    TerminalUnfold(p);
    FromFacts(p);
    if Friendly(p) {
      TerminalRefusesFriendly(p, Name(From(p)), Moved(p));
    } else {
      TerminalGeneratorDecides(p, Name(From(p)), Moved(p));
      TerminalMovesReach(p);
    }
  }

  /** The square one step ahead of a pawn, as the generator looks it up: a
      white pawn on rank 8 wraps around to rank 1. */
  function StepAhead(o: Sq, colour: char): (r: Sq) {
    Sq(o.file, if colour == 'w' then (o.row + 7) % 8 else o.row + 1)
  }

  /** The name of the square one step ahead, as the pawn generator builds
      it: `RanksDesc[row + opt]` with Python's negative subscript, so a
      white pawn on rank 8 wraps around to rank 1 and a black pawn on rank
      1 has no step. */
  function StepName(o: Sq, colour: char): (r: Option<string>)
    requires OnBoard(o)
  {
    var opt := if colour == 'w' then -1 else 1;
    match PyIndex(RanksDesc, o.row + opt)
    case None => None
    case Some(one) => Some([Files[o.file], one])
  }

  /** The step name, whenever it exists, names `StepAhead`. */
  lemma StepNameAhead(o: Sq, colour: char)
    requires OnBoard(o)
    ensures StepName(o, colour).Some? <==> colour == 'w' || o.row < 7
    ensures StepName(o, colour).Some? ==>
      OnBoard(StepAhead(o, colour)) && StepName(o, colour).value == Name(StepAhead(o, colour))
  {
  }

  /** The occupancy check on a square of a sound board. */
  lemma OccupiedCheckAt(c: Checks, s: Sq)
    requires Sound(c) && OnBoard(s)
    ensures OccupiedCheck(c, Name(s)) == if Own(c, s) then Ok(PyFalse) else Ok(PyNone)
  {
    SquareOfName(s);
    SquareNameInTable(Name(s));
  }

  /** `Pawn.get_valid_move` on a sound board offers nothing when the square
      one step ahead holds a piece of the mover's colour. */
  lemma TerminalPawnBlocked(c: Checks, o: Sq)
    requires Sound(c) && OnBoard(o)
    requires PieceColour(c) == 'w' || o.row < 7
    requires Own(c, StepAhead(o, PieceColour(c)))
    ensures TerminalPawn(c, Name(o)) == Ok([])
  {
    var colour := PieceColour(c);
    SquareOfName(o);
    StepNameAhead(o, colour);
    OccupiedCheckAt(c, StepAhead(o, colour));
  }

  /** Otherwise, wherever the modular pawn has a list, it offers that
      list. */
  lemma TerminalPawnFree(c: Checks, o: Sq)
    requires Sound(c) && OnBoard(o)
    requires PieceColour(c) == 'w' || o.row < 6
    requires !Own(c, StepAhead(o, PieceColour(c)))
    ensures PawnFrom(o, PieceColour(c)).Some?
    ensures TerminalPawn(c, Name(o)) == Ok(PawnFrom(o, PieceColour(c)).value)
  {
    var colour := PieceColour(c);
    SquareOfName(o);
    StepNameAhead(o, colour);
    OccupiedCheckAt(c, StepAhead(o, colour));
    PawnHasList(o, colour);
  }

  /** A pawn whose step square holds a piece of the mover's colour is
      refused, whatever the target. */
  lemma TerminalPawnStepRefused(p: Params)
    requires Request(p) && p.pieceMoved[0] == 'p' && !Friendly(p)
    requires MoverColour(p) == 'w' || From(p).row < 6
    requires Own(ChecksOf(p), StepAhead(From(p), MoverColour(p)))
    ensures TerminalMovePiece(p) == Ok(Reply(None, Name(From(p))))
  {
    TerminalUnfold(p);
    FromFacts(p);
    ChecksOfFacts(p);
    TerminalPawnBlocked(ChecksOf(p), From(p));
    TerminalGeneratorDecides(p, Name(From(p)), Moved(p));
  }

  /** Otherwise the modular pawn's list decides. */
  lemma TerminalPawnListDecides(p: Params)
    requires Request(p) && p.pieceMoved[0] == 'p' && !Friendly(p)
    requires MoverColour(p) == 'w' || From(p).row < 6
    requires !Own(ChecksOf(p), StepAhead(From(p), MoverColour(p)))
    ensures PawnFrom(From(p), MoverColour(p)).Some?
    ensures TerminalMovePiece(p) ==
      Ok(Reply(if p.move in PawnFrom(From(p), MoverColour(p)).value then Some(Moved(p)) else None,
               Name(From(p))))
  {
    TerminalUnfold(p);
    FromFacts(p);
    ChecksOfFacts(p);
    TerminalPawnFree(ChecksOf(p), From(p));
    TerminalGeneratorDecides(p, Name(From(p)), Moved(p));
  }

  /** The pawn of this engine, whenever the modular pawn has a list: it
      accepts exactly the modular pawn's squares, provided the target is not
      friendly and the step square does not hold a piece of the mover's
      colour. */
  lemma TerminalPawnDecision(p: Params)
    requires Request(p) && p.pieceMoved[0] == 'p'
    requires MoverColour(p) == 'w' || From(p).row < 6
    ensures PawnFrom(From(p), MoverColour(p)).Some?
    ensures TerminalMovePiece(p).Ok?
    ensures TerminalMovePiece(p).value.board.Some? <==>
      && !Friendly(p)
      && !Own(ChecksOf(p), StepAhead(From(p), MoverColour(p)))
      && p.move in PawnFrom(From(p), MoverColour(p)).value
  {
    PawnHasList(From(p), MoverColour(p));
    if Friendly(p) {
      TerminalUnfold(p);
      FromFacts(p);
      TerminalRefusesFriendly(p, Name(From(p)), Moved(p));
    } else if Own(ChecksOf(p), StepAhead(From(p), MoverColour(p))) {
      TerminalPawnStepRefused(p);
    } else {
      TerminalPawnListDecides(p);
    }
  }

  /** A black pawn has no step from rank 1: the subscript raises. */
  lemma TerminalPawnNoStep(c: Checks, o: Sq)
    requires Sound(c) && OnBoard(o) && PieceColour(c) == 'b' && o.row == 7
    ensures TerminalPawn(c, Name(o)) == Raise(IndexError)
  {
    SquareOfName(o);
    StepNameAhead(o, 'b');
  }

  /** A black pawn on rank 2 with a free step square reaches the modular
      pawn's code, whose two-step subscript raises. */
  lemma TerminalPawnNoSecondStep(c: Checks, o: Sq)
    requires Sound(c) && OnBoard(o) && PieceColour(c) == 'b' && o.row == 6
    requires !Own(c, StepAhead(o, 'b'))
    ensures TerminalPawn(c, Name(o)) == Raise(IndexError)
  {
    SquareOfName(o);
    StepNameAhead(o, 'b');
    OccupiedCheckAt(c, StepAhead(o, 'b'));
    BlackPawnFacts(o);
  }

  /** A black pawn on rank 1 always raises once past the same-colour check;
      on rank 2 it raises unless the square ahead holds a black piece, in
      which case it is simply refused. */
  lemma TerminalBlackPawnEdge(p: Params)
    requires Request(p) && p.pieceMoved[0] == 'p' && !Friendly(p)
    requires MoverColour(p) == 'b' && From(p).row >= 6
    ensures From(p).row == 6 && Own(ChecksOf(p), Sq(From(p).file, 7)) ==>
      TerminalMovePiece(p) == Ok(Reply(None, Name(From(p))))
    ensures !(From(p).row == 6 && Own(ChecksOf(p), Sq(From(p).file, 7))) ==>
      TerminalMovePiece(p) == Raise(IndexError)
  {
    TerminalUnfold(p);
    FromFacts(p);
    ChecksOfFacts(p);
    var o, c := From(p), ChecksOf(p);
    if o.row == 7 {
      TerminalPawnNoStep(c, o);
      TerminalGeneratorRaises(p, Name(o), Moved(p));
    } else if Own(c, Sq(o.file, 7)) {
      TerminalPawnBlocked(c, o);
      TerminalGeneratorDecides(p, Name(o), Moved(p));
    } else {
      TerminalPawnNoSecondStep(c, o);
      TerminalGeneratorRaises(p, Name(o), Moved(p));
    }
  }

  // ---------------------------------------------------------------------
  // The two engines compared

  /** Between neighbouring squares there is nothing to be blocked by. */
  lemma NeighboursNeverBlocked(board: seq<string>, o: Sq, t: Sq)
    requires |board| == 64 && Cheb(o, t) == 1
    ensures !SightBlocked(board, o, t)
  {
    if Falling(o, t) {
      assert Cheb(BottomLeft(o, t), TopRight(o, t)) == 1;
    }
  }

  /** King and knight moves get the same answer from both engines. */
  lemma EnginesAgreeOnKingAndKnight(p: Params)
    requires Request(p) && (p.pieceMoved[0] == 'k' || p.pieceMoved[0] == 'n')
    ensures MovePiece(p) == TerminalMovePiece(p)
  {
    MovePieceDecision(p);
    TerminalDecision(p);
    MovePieceAccepted(p);
    TerminalUnfold(p);
    if p.pieceMoved[0] == 'k' && Reaches('k', From(p), To(p)) {
      NeighboursNeverBlocked(p.savedGame, From(p), To(p));
    }
  }

  /** For rooks, bishops and queens the modular engine is the stricter one:
      every move it accepts the single-file engine accepts too. */
  lemma ModularSlidersStricter(p: Params)
    requires Request(p) && (p.pieceMoved[0] == 'q' || p.pieceMoved[0] == 'r' || p.pieceMoved[0] == 'b')
    requires MovePiece(p).Ok? && MovePiece(p).value.board.Some?
    ensures TerminalMovePiece(p) == MovePiece(p)
  {
    MovePieceDecision(p);
    TerminalDecision(p);
    MovePieceAccepted(p);
    TerminalUnfold(p);
  }

  /** ...but the single-file engine lets them pass through pieces: a rook
      move along a file with a piece in between is accepted there and
      refused by the modular engine. */
  lemma TerminalRookPassesThrough(p: Params)
    requires Request(p) && p.pieceMoved[0] == 'r' && !Friendly(p)
    requires From(p).file == To(p).file && From(p) != To(p)
    requires Obstructed(p.savedGame, From(p), To(p))
    ensures TerminalMovePiece(p).Ok? && TerminalMovePiece(p).value.board.Some?
    ensures MovePiece(p).Ok? && MovePiece(p).value.board.None?
  {
    FromFacts(p);
    assert Reaches('r', From(p), To(p));
    assert SightBlocked(p.savedGame, From(p), To(p));
    MovePieceDecision(p);
    TerminalDecision(p);
  }
}
