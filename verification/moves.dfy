/** One move request of the modular engine: `MovePiece.move_piece`
    (`move_piece/move_piece.py`) finds the piece, swaps it onto the target
    square of a copy of the board and hands the copy to
    `ValidateMove.validate_move` (`move_piece/validate_move.py`), which runs
    the restricted-move checks and the piece's move generator. */
module Moves {
  import opened Common
  import opened Notation
  import opened Geometry
  import opened Tokens
  import opened Restricted
  import opened Pieces

  /** The pair `validate_move` returns: the board after the move, or `None`
      when the move is refused, and the origin square's name. */
  datatype Reply = Reply(board: Option<seq<string>>, origin: string)

  // ---------------------------------------------------------------------
  // get_piece_moves

  /** The non-pawn arms of the `match` of `get_piece_moves`: the generator
      chosen by a piece letter. Any other letter has no moves. */
  function PieceGenerated(letter: char, origin: string): (r: seq<string>)
    requires IsSquareName(origin)
    ensures letter !in "kqrbn" ==> r == []
  {
    if letter == 'k' then KingMoves(origin)
    else if letter == 'q' then QueenMoves(origin)
    else if letter == 'r' then RookMoves(origin)
    else if letter == 'b' then BishopMoves(origin)
    else if letter == 'n' then KnightMoves(origin)
    else []
  }

  /** The whole `match` of `get_piece_moves`; the pawn generator gets the
      mover's colour letter. The letters are distinct, so testing the
      pawn's first picks the same arm as the source's order. `None` when
      the pawn generator indexes past rank 1. */
  function Generated(letter: char, origin: string, colour: char): (r: Option<seq<string>>)
    requires IsSquareName(origin) && (colour == 'w' || colour == 'b')
    ensures r.None? <==> letter == 'p' && colour == 'b' && SquareOf(origin).row >= 6
    ensures letter !in "kqrbnp" ==> r == Some([])
  {
    if letter == 'p' then
      PawnMovesFacts(origin, colour);
      PawnMoves(origin, colour)
    else Some(PieceGenerated(letter, origin))
  }

  /** `get_piece_moves`: subscripting an empty piece name raises, and so
      does a pawn generator that indexes past rank 1. */
  function GetPieceMoves(p: Params, origin: string): (r: Result<seq<string>>)
    requires IsSquareName(origin)
    ensures r.Raise? ==> r.exc == IndexError
    ensures r.Raise? <==> (|p.pieceMoved| == 0 ||
      (p.pieceMoved[0] == 'p' && MoverColour(p) == 'b' && SquareOf(origin).row >= 6))
  {
    if |p.pieceMoved| == 0 then Raise(IndexError)
    else
      match Generated(p.pieceMoved[0], origin, MoverColour(p))
      case None => Raise(IndexError)
      case Some(moves) => Ok(moves)
  }

  /** The movement rule of each piece letter other than the pawn, as a
      relation between two squares. */
  predicate Reaches(letter: char, o: Sq, t: Sq) {
    && OnBoard(t) && t != o
    && match letter
       case 'k' => Cheb(o, t) == 1
       case 'n' => Leap(Diff(o, t))
       case 'r' => t.file == o.file || t.row == o.row
       case 'b' => Diagonal(o, t)
       case 'q' => t.file == o.file || t.row == o.row || Diagonal(o, t)
       case _ => false
  }

  /** Spelling the generated squares as names loses nothing: a square name
      is offered exactly when its square is among the generated squares. */
  lemma NamesMembership(cs: seq<Sq>, name: string)
    requires AllOnBoard(cs) && IsSquareName(name)
    ensures name in Names(cs) <==> SquareOf(name) in cs
  {
    NamesFacts(cs);
  }

  /** The king generator yields exactly the eight neighbours. */
  lemma KingReaches(o: Sq, t: Sq)
    requires OnBoard(o)
    ensures t in KingTargets(o) <==> Reaches('k', o, t)
  {
    KingTargetsMembers(o);
  }

  /** Spelled as names, the king moves are the names of the squares
      the king reaches. */
  lemma KingMovesNamed(origin: string, target: string)
    requires IsSquareName(origin) && IsSquareName(target)
    ensures target in KingMoves(origin) <==> Reaches('k', SquareOf(origin), SquareOf(target))
  {
    var o, t := SquareOf(origin), SquareOf(target);
    NamesMembership(KingTargets(o), target);
    KingReaches(o, t);
  }

  /** The queen generator yields the squares on a common file, rank or diagonal. */
  lemma QueenReaches(o: Sq, t: Sq)
    requires OnBoard(o)
    ensures t in QueenTargets(o) <==> Reaches('q', o, t)
  {
    QueenMembers(o, t);
  }

  /** Spelled as names, the queen moves are the names of the squares
      the queen reaches. */
  lemma QueenMovesNamed(origin: string, target: string)
    requires IsSquareName(origin) && IsSquareName(target)
    ensures target in QueenMoves(origin) <==> Reaches('q', SquareOf(origin), SquareOf(target))
  {
    var o, t := SquareOf(origin), SquareOf(target);
    NamesMembership(QueenTargets(o), target);
    QueenReaches(o, t);
  }

  /** The rook generator yields the squares on a common file or rank. */
  lemma RookReaches(o: Sq, t: Sq)
    requires OnBoard(o)
    ensures t in RookTargets(o) <==> Reaches('r', o, t)
  {
    RookMembers(o);
  }

  /** Spelled as names, the rook moves are the names of the squares
      the rook reaches. */
  lemma RookMovesNamed(origin: string, target: string)
    requires IsSquareName(origin) && IsSquareName(target)
    ensures target in RookMoves(origin) <==> Reaches('r', SquareOf(origin), SquareOf(target))
  {
    var o, t := SquareOf(origin), SquareOf(target);
    NamesMembership(RookTargets(o), target);
    RookReaches(o, t);
  }

  /** The bishop generator yields the squares on a common diagonal. */
  lemma BishopReaches(o: Sq, t: Sq)
    requires OnBoard(o)
    ensures t in BishopTargets(o) <==> Reaches('b', o, t)
  {
    BishopMembers(o);
  }

  /** Spelled as names, the bishop moves are the names of the squares
      the bishop reaches. */
  lemma BishopMovesNamed(origin: string, target: string)
    requires IsSquareName(origin) && IsSquareName(target)
    ensures target in BishopMoves(origin) <==> Reaches('b', SquareOf(origin), SquareOf(target))
  {
    var o, t := SquareOf(origin), SquareOf(target);
    NamesMembership(BishopTargets(o), target);
    BishopReaches(o, t);
  }

  /** The knight generator yields the squares a leap away. */
  lemma KnightReaches(o: Sq, t: Sq)
    requires OnBoard(o)
    ensures t in KnightTargets(o) <==> Reaches('n', o, t)
  {
    KnightTargetsMembers(o);
  }

  /** Spelled as names, the knight moves are the names of the squares
      the knight reaches. */
  lemma KnightMovesNamed(origin: string, target: string)
    requires IsSquareName(origin) && IsSquareName(target)
    ensures target in KnightMoves(origin) <==> Reaches('n', SquareOf(origin), SquareOf(target))
  {
    var o, t := SquareOf(origin), SquareOf(target);
    NamesMembership(KnightTargets(o), target);
    KnightReaches(o, t);
  }

  /** For every piece but the pawn the offered names are exactly the names
      of the squares the piece reaches under the rules of chess, ignoring
      the board. */
  lemma GetPieceMovesReaches(p: Params, origin: string, target: string)
    requires IsSquareName(origin) && IsSquareName(target)
    requires |p.pieceMoved| > 0 && p.pieceMoved[0] != 'p'
    ensures GetPieceMoves(p, origin).Ok?
    ensures target in GetPieceMoves(p, origin).value <==>
      Reaches(p.pieceMoved[0], SquareOf(origin), SquareOf(target))
  {
    var letter := p.pieceMoved[0];
    if letter == 'k' {
      KingMovesNamed(origin, target);
    } else if letter == 'q' {
      QueenMovesNamed(origin, target);
    } else if letter == 'r' {
      RookMovesNamed(origin, target);
    } else if letter == 'b' {
      BishopMovesNamed(origin, target);
    } else if letter == 'n' {
      KnightMovesNamed(origin, target);
    }
  }

  // ---------------------------------------------------------------------
  // validate_move

  /** `validate_move`: refuses (board `None`) a move that displaces a piece
      of the mover's colour, then one the line-of-sight check objects to,
      then one whose target is not among the piece's generated moves;
      otherwise hands back the board it was given. The origin square's name
      comes back in every case; an exception in a check propagates. */
  function ValidateMove(p: Params, targetIndex: int, replaced: string, origin: string, board: seq<string>): (r: Result<Reply>)
    requires IsSquareName(origin) && IsSquareName(p.move)
    ensures r.Ok? ==> r.value.origin == origin
    ensures r.Ok? && r.value.board.Some? ==> r.value.board.value == board
  {
    match SameColorPiece(p, Some(targetIndex), Some(replaced))
    case Raise(e) => Raise(e)
    case Ok(same) =>
      if Truthy(same) then Ok(Reply(None, origin))
      else
        match JumpingOverPieces(p, origin)
        case Raise(e) => Raise(e)
        case Ok(jumping) =>
          if Truthy(jumping) then Ok(Reply(None, origin))
          else
            match GetPieceMoves(p, origin)
            case Raise(e) => Raise(e)
            case Ok(moves) =>
              if p.move !in moves then Ok(Reply(None, origin))
              else Ok(Reply(Some(board), origin))
  }

  // ---------------------------------------------------------------------
  // move_piece

  /** `_swap_pieces` on the working copy: the coloured token goes to
      `square`, whatever stood there goes to `position`, and the displaced
      token is returned. */
  function SwapPieces(board: seq<string>, square: int, position: int, token: string): (r: (seq<string>, string))
    requires 0 <= square < |board| && 0 <= position < |board|
    ensures r.1 == board[square]
    ensures |r.0| == |board|
    ensures r.0[position] == board[square]
    ensures square != position ==> r.0[square] == token
    ensures forall k :: 0 <= k < |board| && k != square && k != position ==> r.0[k] == board[k]
  {
    (board[square := token][position := board[square]], board[square])
  }

  /** When the token really stands at `position`, the swap exchanges two
      cells: the pieces on the board are the same multiset. */
  lemma SwapIsTransposition(board: seq<string>, square: int, position: int, token: string)
    requires 0 <= square < |board| && 0 <= position < |board|
    requires board[position] == token
    ensures multiset(SwapPieces(board, square, position, token).0) == multiset(board)
  {
    var b := SwapPieces(board, square, position, token).0;
    if square != position {
      var mid := board[square := token];
      MultisetUpdate(board, square, token);
      assert mid[position] == token;
      MultisetUpdate(mid, position, board[square]);
    } else {
      assert b == board;
    }
  }

  /** Overwriting one cell trades its old value for the new one. */
  lemma MultisetUpdate(s: seq<string>, i: int, v: string)
    requires 0 <= i < |s|
    ensures multiset(s[i := v]) == multiset(s) - multiset{s[i]} + multiset{v}
  {
  }

  /** Swapping back with the displaced token restores the board. */
  lemma SwapUndone(board: seq<string>, square: int, position: int, token: string)
    requires 0 <= square < |board| && 0 <= position < |board|
    requires board[position] == token
    ensures var (b, replaced) := SwapPieces(board, square, position, token);
      SwapPieces(b, square, position, replaced).0 == board
  {
  }

  /** `move_piece`: the origin name (`get_piece_position`, `ValueError`
      when the token is not on the board), the token's cell and the target
      cell (`list.index`, `ValueError` when the requested square is not a
      square name), the swap on a copy of the board, and `validate_move` on
      that copy. */
  function MovePiece(p: Params): (r: Result<Reply>)
    requires WellFormed(p)
  {
    var token := DeterminePieceColor(p);
    match GetPiecePosition(p, p.savedGame)
    case Raise(e) => Raise(e)
    case Ok(origin) =>
      var position := IndexOf(p.savedGame, token).value;
      match IndexOf(p.cellName, p.move)
      case None => Raise(ValueError)
      case Some(target) =>
        SquareNameInTable(p.move);
        var (board, replaced) := SwapPieces(p.savedGame, target, position, token);
        ValidateMove(p, target, replaced, origin, board)
  }

  // ---------------------------------------------------------------------
  // Properties of a move request

  /** The cell the coloured token occupies first. */
  function TokenCell(p: Params): (k: nat)
    requires DeterminePieceColor(p) in p.savedGame
    ensures k < |p.savedGame| && p.savedGame[k] == DeterminePieceColor(p)
  {
    IndexOf(p.savedGame, DeterminePieceColor(p)).value
  }

  /** The square the piece moves from. */
  function From(p: Params): (r: Sq)
    requires |p.savedGame| == 64 && DeterminePieceColor(p) in p.savedGame
  {
    SqAt(TokenCell(p))
  }

  /** The square the piece is asked to move to. */
  function To(p: Params): (r: Sq)
    requires IsSquareName(p.move)
  {
    SquareOf(p.move)
  }

  /** The board after the piece is put on its target square, the piece that
      stood there going to the square the piece left. */
  function Moved(p: Params): (r: seq<string>)
    requires |p.savedGame| == 64 && DeterminePieceColor(p) in p.savedGame && IsSquareName(p.move)
  {
    SwapPieces(p.savedGame, Index(To(p)), TokenCell(p), DeterminePieceColor(p)).0
  }

  /** The target square holds a piece of the mover's colour. */
  predicate Friendly(p: Params)
    requires |p.savedGame| == 64 && IsSquareName(p.move)
  {
    |p.savedGame[Index(To(p))]| > 0 && p.savedGame[Index(To(p))][0] == MoverColour(p)
  }

  /** A request as the game loop builds it: a well-formed table and board,
      a non-empty piece name whose token is on the board, a target that is
      a square name, and no empty string in any cell. */
  predicate Request(p: Params) {
    && WellFormed(p)
    && |p.pieceMoved| > 0
    && DeterminePieceColor(p) in p.savedGame
    && IsSquareName(p.move)
    && forall k :: 0 <= k < 64 ==> |p.savedGame[k]| > 0
  }

  /** Where the origin comes from: the first cell holding the token, named
      through the table. */
  lemma FromFacts(p: Params)
    requires WellFormed(p) && DeterminePieceColor(p) in p.savedGame
    ensures OnBoard(From(p)) && Index(From(p)) == TokenCell(p)
    ensures p.savedGame[Index(From(p))] == DeterminePieceColor(p)
    ensures GetPiecePosition(p, p.savedGame) == Ok(Name(From(p)))
    ensures IsSquareName(Name(From(p))) && SquareOf(Name(From(p))) == From(p)
  {
    TableShape();
    SquareOfName(From(p));
  }

  /** Past the two lookups, `move_piece` is `validate_move` on the moved
      board with the origin's name and the target's old occupant. */
  lemma MovePieceUnfold(p: Params)
    requires WellFormed(p) && DeterminePieceColor(p) in p.savedGame && IsSquareName(p.move)
    ensures MovePiece(p) ==
      ValidateMove(p, Index(To(p)), p.savedGame[Index(To(p))], Name(From(p)), Moved(p))
  {
    FromFacts(p);
    SquareNameInTable(p.move);
  }

  /** The line-of-sight check raises only `IndexError` (for an empty piece
      name) on a well-formed request. */
  lemma JumpingErrors(p: Params, origin: string)
    requires WellFormed(p) && IsSquareName(origin) && IsSquareName(p.move)
    ensures JumpingOverPieces(p, origin).Raise? ==> JumpingOverPieces(p, origin).exc == IndexError
  {
    if |p.pieceMoved| == 0 {
    } else if p.pieceMoved[0] == 'n' {
      JumpingKnight(p, origin);
    } else {
      JumpingAligned(p, origin);
    }
  }

  /** The only exception `validate_move` lets through on a well-formed
      request is `IndexError`. */
  lemma ValidateMoveErrors(p: Params, targetIndex: int, replaced: string, origin: string, board: seq<string>)
    requires WellFormed(p) && IsSquareName(origin) && IsSquareName(p.move)
    ensures var r := ValidateMove(p, targetIndex, replaced, origin, board);
      r.Raise? ==> r.exc == IndexError
  {
    match SameColorPiece(p, Some(targetIndex), Some(replaced))
    case Raise(_) =>
    case Ok(same) =>
      if !Truthy(same) {
        JumpingErrors(p, origin);
      }
  }

  /** `move_piece` raises `ValueError` exactly when the coloured token is not
      on the board or the requested square is not in the table; the only
      other exception it lets through is `IndexError`. */
  lemma MovePieceErrors(p: Params)
    requires WellFormed(p)
    ensures MovePiece(p) == Raise(ValueError) <==>
      DeterminePieceColor(p) !in p.savedGame || p.move !in p.cellName
    ensures MovePiece(p).Raise? ==> MovePiece(p).exc == ValueError || MovePiece(p).exc == IndexError
  {
    if DeterminePieceColor(p) in p.savedGame && p.move in p.cellName {
      SquareNameInTable(p.move);
      MovePieceUnfold(p);
      FromFacts(p);
      ValidateMoveErrors(p, Index(To(p)), p.savedGame[Index(To(p))], Name(From(p)), Moved(p));
    }
  }

  /** An accepted move answers the moved board and the origin's name: the
      piece stands on the target, the target's old occupant (a captured
      piece included) on the origin, and nothing else has changed. */
  lemma MovePieceAccepted(p: Params)
    requires WellFormed(p) && DeterminePieceColor(p) in p.savedGame && IsSquareName(p.move)
    requires MovePiece(p).Ok?
    ensures MovePiece(p).value.origin == Name(From(p))
    ensures MovePiece(p).value.board.Some? ==> MovePiece(p).value.board == Some(Moved(p))
    ensures MovePiece(p).value.board.Some? ==> From(p) != To(p)
    ensures var b := Moved(p);
      && |b| == 64
      && b[Index(From(p))] == p.savedGame[Index(To(p))]
      && (From(p) != To(p) ==> b[Index(To(p))] == DeterminePieceColor(p))
      && forall k :: 0 <= k < 64 && k != Index(From(p)) && k != Index(To(p)) ==> b[k] == p.savedGame[k]
  {
    MovePieceUnfold(p);
    FromFacts(p);
    var o, t := From(p), To(p);
    if o == t {
      SameColorAtTarget(p, p.savedGame[Index(t)]);
    }
  }

  /** Every piece but the knight moves along a file, rank or diagonal. */
  lemma ReachesAligned(letter: char, o: Sq, t: Sq)
    requires letter != 'n' && Reaches(letter, o, t)
    ensures Aligned(o, t)
  {
  }

  /** The moves the modular engine accepts for a piece other than a pawn:
      the target does not hold a piece of the mover's colour, the piece
      reaches it by its rule of movement, and, unless it is a knight, the
      line-of-sight check finds nothing in the way. */
  predicate Legal(p: Params)
    requires Request(p)
  {
    var o, t, letter := From(p), To(p), p.pieceMoved[0];
    && !Friendly(p)
    && Reaches(letter, o, t)
    && (letter == 'n' || !SightBlocked(p.savedGame, o, t))
  }

  /** For every piece but the pawn, `move_piece` never raises on a request
      and accepts exactly the legal moves. */
  lemma MovePieceDecision(p: Params)
    requires Request(p) && p.pieceMoved[0] != 'p'
    ensures MovePiece(p).Ok?
    ensures MovePiece(p).value.board.Some? <==> Legal(p)
  {
    MovePieceUnfold(p);
    FromFacts(p);
    SquareNameInTable(p.move);
    var o, t, origin := From(p), To(p), Name(From(p));
    SameColorAtTarget(p, p.savedGame[Index(t)]);
    GetPieceMovesReaches(p, origin, p.move);
    if p.pieceMoved[0] == 'n' {
      JumpingKnight(p, origin);
    } else {
      JumpingAligned(p, origin);
      if Reaches(p.pieceMoved[0], o, t) {
        ReachesAligned(p.pieceMoved[0], o, t);
      }
    }
  }

  /** The pawn's generator, for the pawn's own square. */
  lemma GetPieceMovesPawn(p: Params, origin: string)
    requires IsSquareName(origin) && |p.pieceMoved| > 0 && p.pieceMoved[0] == 'p'
    ensures GetPieceMoves(p, origin).Raise? <==> PawnFrom(SquareOf(origin), MoverColour(p)).None?
    ensures GetPieceMoves(p, origin).Ok? ==>
      GetPieceMoves(p, origin).value == PawnFrom(SquareOf(origin), MoverColour(p)).value
  {
  }

  /** The pawn: behind the same two checks, the generated list decides,
      and a black pawn on rank 2 or 1 that gets past them raises. */
  lemma MovePiecePawn(p: Params)
    requires Request(p) && p.pieceMoved[0] == 'p'
    ensures var o, t := From(p), To(p);
      var open := !Friendly(p) && Aligned(o, t) && !SightBlocked(p.savedGame, o, t);
      && (MovePiece(p).Raise? <==> open && MoverColour(p) == 'b' && o.row >= 6)
      && (MovePiece(p).Ok? && MovePiece(p).value.board.Some? <==>
            open && PawnFrom(o, MoverColour(p)).Some? && p.move in PawnFrom(o, MoverColour(p)).value)
  {
    MovePieceUnfold(p);
    FromFacts(p);
    SquareNameInTable(p.move);
    var o, t, origin := From(p), To(p), Name(From(p));
    SameColorAtTarget(p, p.savedGame[Index(t)]);
    JumpingAligned(p, origin);
    GetPieceMovesPawn(p, origin);
    BlackPawnFacts(o);
  }

  /** A pawn never moves off its file, so it can never capture diagonally. */
  lemma PawnStaysOnFile(p: Params)
    requires Request(p) && p.pieceMoved[0] == 'p'
    requires To(p).file != From(p).file
    ensures MovePiece(p).Ok? ==> MovePiece(p).value.board.None?
  {
    MovePiecePawn(p);
    FromFacts(p);
    var o := From(p);
    if PawnFrom(o, MoverColour(p)).Some? && p.move in PawnFrom(o, MoverColour(p)).value {
      PawnFile(o, MoverColour(p), p.move);
    }
  }

  /** Instead, a white pawn takes the enemy piece straight ahead of it, and
      that piece lands on the square the pawn left. */
  lemma PawnCapturesAhead(p: Params)
    requires Request(p) && p.pieceMoved[0] == 'p' && p.playing == p.playerWhite
    requires 2 <= From(p).row && To(p) == Sq(From(p).file, From(p).row - 1)
    requires p.savedGame[Index(To(p))][0] == 'b'
    ensures MovePiece(p) == Ok(Reply(Some(Moved(p)), Name(From(p))))
    ensures Moved(p)[Index(From(p))] == p.savedGame[Index(To(p))]
    ensures Moved(p)[Index(To(p))] == DeterminePieceColor(p)
  {
    MovePiecePawn(p);
    PawnStepOpen(p);
    MovePieceAccepted(p);
  }

  /** The square straight ahead of a white pawn holding a black piece
      passes both checks and is on the pawn's list. */
  lemma PawnStepOpen(p: Params)
    requires Request(p) && p.pieceMoved[0] == 'p' && p.playing == p.playerWhite
    requires 2 <= From(p).row && To(p) == Sq(From(p).file, From(p).row - 1)
    requires p.savedGame[Index(To(p))][0] == 'b'
    ensures !Friendly(p) && Aligned(From(p), To(p)) && !SightBlocked(p.savedGame, From(p), To(p))
    ensures PawnFrom(From(p), MoverColour(p)).Some? && p.move in PawnFrom(From(p), MoverColour(p)).value
  {
    FromFacts(p);
    var o, t := From(p), To(p);
    WhitePawnFacts(o);
    assert p.move == Name(t);
    assert Cheb(o, t) == 1;
  }
}
