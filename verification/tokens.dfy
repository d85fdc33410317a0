/** The shared state of one move request of the modular engine, and the
    two helpers that turn it into a coloured token and that token into a
    square (`determine_piece_color.py`, `get_piece_position.py`). The
    single-file engine's `Piece.determine_piece_color` and
    `Piece.get_piece_position` are the same code and reuse these. */
module Tokens {
  import opened Common
  import opened Notation

  /** The `params` object: the requested piece (`move.piece_moved`, e.g.
      `"p5"`), the target square (`move.move`), the player to move and the
      white player's name (`player.playing`, `player.player_white`), the
      square-name table (`cell_name`) and the board (`saved_game`). */
  datatype Params = Params(
    pieceMoved: string,
    move: string,
    playing: string,
    playerWhite: string,
    cellName: seq<string>,
    savedGame: seq<string>)

  /** What every caller sets up: the table of square names and a 64-cell
      board. */
  predicate WellFormed(p: Params) {
    p.cellName == Table() && |p.savedGame| == 64
  }

  /** `determine_piece_color`: the requested piece prefixed with `w` when
      the player to move is the white player, with `b` otherwise. */
  function DeterminePieceColor(p: Params): (token: string)
    ensures |token| == |p.pieceMoved| + 1
    ensures token[1..] == p.pieceMoved
    ensures token[0] == 'w' || token[0] == 'b'
    ensures token[0] == 'w' <==> p.playing == p.playerWhite
  {
    if p.playing == p.playerWhite then "w" + p.pieceMoved else "b" + p.pieceMoved
  }

  /** Only whether the player to move is the white player matters; the
      names themselves do not. */
  lemma ColourDependsOnTurnOnly(p: Params, q: Params)
    requires p.pieceMoved == q.pieceMoved
    requires (p.playing == p.playerWhite) == (q.playing == q.playerWhite)
    ensures DeterminePieceColor(p) == DeterminePieceColor(q)
  {
    var a, b := DeterminePieceColor(p), DeterminePieceColor(q);
    assert a == [a[0]] + a[1..];
    assert b == [b[0]] + b[1..];
  }

  /** `get_piece_position`: the name of the first square of `board` that
      holds the coloured token; `list.index` raises `ValueError` when the
      token is absent. */
  function GetPiecePosition(p: Params, board: seq<string>): (r: Result<string>)
    ensures r.Raise? ==> r.exc == ValueError || r.exc == IndexError
    ensures r == Raise(ValueError) <==> DeterminePieceColor(p) !in board
    ensures p.cellName == Table() && r.Ok? ==> IsSquareName(r.value)
  {
    match IndexOf(board, DeterminePieceColor(p))
    case None => Raise(ValueError)
    case Some(k) =>
      if k < |p.cellName| then
        if p.cellName == Table() then
          SquareNameInTable(p.cellName[k]);
          Ok(p.cellName[k])
        else Ok(p.cellName[k])
      else Raise(IndexError)
  }

  /** With the real table and a 64-cell board, the lookup fails exactly when
      the token is missing, and otherwise names the square whose cell holds
      the token, no earlier cell holding it. */
  lemma GetPiecePositionFacts(p: Params)
    requires WellFormed(p)
    ensures var r := GetPiecePosition(p, p.savedGame);
      r.Ok? <==> DeterminePieceColor(p) in p.savedGame
    ensures var r := GetPiecePosition(p, p.savedGame);
      r.Ok? ==> (
        && IsSquareName(r.value)
        && p.savedGame[Index(SquareOf(r.value))] == DeterminePieceColor(p)
        && forall j :: 0 <= j < Index(SquareOf(r.value)) ==> p.savedGame[j] != DeterminePieceColor(p))
  {
    var token := DeterminePieceColor(p);
    TableShape();
    if token in p.savedGame {
      var k := IndexOf(p.savedGame, token).value;
      var name := Table()[k];
      assert name in Table();
      assert name == Name(SqAt(k));
      NameInjective(SquareOf(name), SqAt(k));
    }
  }
}
