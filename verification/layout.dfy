/** The starting position (`create_board/place_pieces.py`), and the literal
    starting list of the single-file engine (`terminalchess.py`). A board
    is a list of 64 tokens: colour letter, piece letter, optional instance
    digit (`"wr1"`, `"bq"`, `"bp5"`), or `" "` for an empty square. */
module Layout {
  import opened Common
  import opened Notation

  /** The empty-square marker. */
  const Blank: string := " "

  /** Back-rank piece letters, file a to file h. */
  const Chessmen: string := "rnbqkbnr"

  /** Instance suffix of the back-rank piece at `index`: the queen-side
      rook, knight and bishop get `"1"`, the king-side ones `"2"`, the
      queen and king none. */
  function Suffix(index: int): (r: string) {
    if index < 3 then "1" else if index > 4 then "2" else ""
  }

  /** `_place_chessmen`: the eight back-rank tokens of one colour. */
  function PlaceChessmen(prefix: string): (r: seq<string>) {
    seq(8, index requires 0 <= index < 8 => prefix + [Chessmen[index]] + Suffix(index))
  }

  /** `_place_pawns`: the eight pawns `p1..p8`, followed by the 32 empty
      squares of the middle of the board when the prefix is black. */
  function PlacePawns(prefix: string): (r: seq<string>) {
    seq(8, k requires 0 <= k < 8 => prefix + "p" + [Digit(k + 1)])
    + (if prefix == "b" then seq(32, _ => Blank) else [])
  }

  /** One pass of the loop of `_place_chess_pieces`: black (pass 0) lays
      back rank then pawns, white (pass 1) pawns then back rank. */
  function PlaceRound(i: int): (r: seq<string>)
    requires 0 <= i < 2
  {
    var prefix := if i == 1 then "w" else "b";
    if i == 0 then PlaceChessmen(prefix) + PlacePawns(prefix)
    else PlacePawns(prefix) + PlaceChessmen(prefix)
  }

  /** `_place_chess_pieces`: the starting board. */
  function PlaceChessPieces(): (r: seq<string>) {
    PlaceRound(0) + PlaceRound(1)
  }

  /** The literal `chess_pieces` list of `terminalchess.py`. */
  const ChessPiecesLiteral: seq<string> :=
    ["br1", "bn1", "bb1", "bq", "bk", "bb2", "bn2", "br2"] +
    ["bp1", "bp2", "bp3", "bp4", "bp5", "bp6", "bp7", "bp8"] +
    [" ", " ", " ", " ", " ", " ", " ", " "] +
    [" ", " ", " ", " ", " ", " ", " ", " "] +
    [" ", " ", " ", " ", " ", " ", " ", " "] +
    [" ", " ", " ", " ", " ", " ", " ", " "] +
    ["wp1", "wp2", "wp3", "wp4", "wp5", "wp6", "wp7", "wp8"] +
    ["wr1", "wn1", "wb1", "wq", "wk", "wb2", "wn2", "wr2"]

  /** The back-rank token of `prefix` for file `j`, without the prefix. */
  function BackRankPiece(j: int): (r: string)
    requires 0 <= j < 8
  {
    [Chessmen[j]] + Suffix(j)
  }

  /** Different files of the back rank carry different tokens. */
  lemma BackRankPieceInjective(j: int, k: int)
    requires 0 <= j < 8 && 0 <= k < 8
    ensures BackRankPiece(j) == BackRankPiece(k) <==> j == k
  {
    assert BackRankPiece(0) == "r1" && BackRankPiece(1) == "n1";
    assert BackRankPiece(2) == "b1" && BackRankPiece(3) == "q";
    assert BackRankPiece(4) == "k" && BackRankPiece(5) == "b2";
    assert BackRankPiece(6) == "n2" && BackRankPiece(7) == "r2";
    assert j == 0 || j == 1 || j == 2 || j == 3 || j == 4 || j == 5 || j == 6 || j == 7;
    assert k == 0 || k == 1 || k == 2 || k == 3 || k == 4 || k == 5 || k == 6 || k == 7;
  }

  lemma BackRankSpelled()
    ensures PlaceChessmen("b") == ["br1", "bn1", "bb1", "bq", "bk", "bb2", "bn2", "br2"]
    ensures PlaceChessmen("w") == ["wr1", "wn1", "wb1", "wq", "wk", "wb2", "wn2", "wr2"]
  {
    var c := PlaceChessmen("b");
    assert c[0] == "br1" && c[1] == "bn1" && c[2] == "bb1" && c[3] == "bq";
    assert c[4] == "bk" && c[5] == "bb2" && c[6] == "bn2" && c[7] == "br2";
    c := PlaceChessmen("w");
    assert c[0] == "wr1" && c[1] == "wn1" && c[2] == "wb1" && c[3] == "wq";
    assert c[4] == "wk" && c[5] == "wb2" && c[6] == "wn2" && c[7] == "wr2";
  }

  lemma PawnsSpelled()
    ensures PlacePawns("b")[..8] == ["bp1", "bp2", "bp3", "bp4", "bp5", "bp6", "bp7", "bp8"]
    ensures PlacePawns("w") == ["wp1", "wp2", "wp3", "wp4", "wp5", "wp6", "wp7", "wp8"]
  {
    var p := PlacePawns("b");
    assert p[0] == "bp1" && p[1] == "bp2" && p[2] == "bp3" && p[3] == "bp4";
    assert p[4] == "bp5" && p[5] == "bp6" && p[6] == "bp7" && p[7] == "bp8";
    p := PlacePawns("w");
    assert p[0] == "wp1" && p[1] == "wp2" && p[2] == "wp3" && p[3] == "wp4";
    assert p[4] == "wp5" && p[5] == "wp6" && p[6] == "wp7" && p[7] == "wp8";
  }

  /** The layout, square by square: black back rank (indices 0-7), black
      pawns (8-15), 32 empty squares (16-47), white pawns (48-55), white
      back rank (56-63). */
  lemma LayoutShape()
    ensures |PlaceChessPieces()| == 64
    ensures forall i :: 0 <= i < 8 ==> PlaceChessPieces()[i] == "b" + BackRankPiece(i)
    ensures forall i :: 8 <= i < 16 ==> PlaceChessPieces()[i] == "bp" + [Digit(i - 7)]
    ensures forall i :: 16 <= i < 48 ==> PlaceChessPieces()[i] == Blank
    ensures forall i :: 48 <= i < 56 ==> PlaceChessPieces()[i] == "wp" + [Digit(i - 47)]
    ensures forall i :: 56 <= i < 64 ==> PlaceChessPieces()[i] == "w" + BackRankPiece(i - 56)
  {
    var b := PlaceChessPieces();
    assert b == PlaceChessmen("b") + PlacePawns("b") + PlacePawns("w") + PlaceChessmen("w");
    forall i | 8 <= i < 16 ensures b[i] == "bp" + [Digit(i - 7)] {
      assert b[i] == PlacePawns("b")[i - 8];
    }
    forall i | 16 <= i < 48 ensures b[i] == Blank {
      assert b[i] == PlacePawns("b")[i - 8];
    }
    forall i | 48 <= i < 56 ensures b[i] == "wp" + [Digit(i - 47)] {
      assert b[i] == PlacePawns("w")[i - 48];
    }
    forall i | 56 <= i < 64 ensures b[i] == "w" + BackRankPiece(i - 56) {
      assert b[i] == PlaceChessmen("w")[i - 56];
    }
  }

  /** The back ranks read `rnbqkbnr` with the `1`/`2` suffixes. */
  lemma LayoutBackRanks()
    ensures PlaceChessPieces()[..8] == ["br1", "bn1", "bb1", "bq", "bk", "bb2", "bn2", "br2"]
    ensures PlaceChessPieces()[56..] == ["wr1", "wn1", "wb1", "wq", "wk", "wb2", "wn2", "wr2"]
  {
    var b := PlaceChessPieces();
    assert b == PlaceChessmen("b") + PlacePawns("b") + PlacePawns("w") + PlaceChessmen("w");
    BackRankSpelled();
    assert b[..8] == PlaceChessmen("b");
    assert b[56..] == PlaceChessmen("w");
  }

  /** Exactly one white king (at e1, index 60) and one black king (at e8,
      index 4). */
  lemma LayoutKings()
    ensures PlaceChessPieces()[4] == "bk" && PlaceChessPieces()[60] == "wk"
    ensures forall i :: 0 <= i < 64 && i != 4 ==> PlaceChessPieces()[i] != "bk"
    ensures forall i :: 0 <= i < 64 && i != 60 ==> PlaceChessPieces()[i] != "wk"
  {
    LayoutShape();
    var b := PlaceChessPieces();
    forall i | 0 <= i < 64 && i != 4 ensures b[i] != "bk" {
      if i < 8 {
        BackRankPieceInjective(i, 4);
        assert b[i][1..] != "k";
      } else if 56 <= i {
        assert b[i][0] == 'w';
      }
    }
    forall i | 0 <= i < 64 && i != 60 ensures b[i] != "wk" {
      if 56 <= i {
        BackRankPieceInjective(i - 56, 4);
        assert b[i][1..] != "k";
      } else if i < 8 {
        assert b[i][0] == 'b';
      }
    }
  }

  /** No piece token occurs twice; only the blank repeats. */
  lemma LayoutTokensDistinct()
    ensures forall i, j :: 0 <= i < j < 64 && PlaceChessPieces()[i] != Blank ==>
      PlaceChessPieces()[i] != PlaceChessPieces()[j]
  {
    LayoutShape();
    var b := PlaceChessPieces();
    forall i, j | 0 <= i < j < 64 && b[i] != Blank ensures b[i] != b[j] {
      if b[j] != Blank && b[i][0] == b[j][0] {
        if i < 8 && j < 8 {
          BackRankPieceInjective(i, j);
          assert b[i][1..] != b[j][1..];
        } else if 56 <= i && 56 <= j {
          BackRankPieceInjective(i - 56, j - 56);
          assert b[i][1..] != b[j][1..];
        } else if (i < 8 && 8 <= j < 16) || (48 <= i < 56 && 56 <= j) {
          assert b[i][1] != b[j][1];
        } else {
          assert b[i][2] != b[j][2];
        }
      }
    }
  }

  /** Black's pawn pass, spelled out: the eight pawns, then four empty
      ranks. */
  lemma BlackPawnPassSpelled()
    ensures var blanks := [" ", " ", " ", " ", " ", " ", " ", " "];
      PlacePawns("b") == ["bp1", "bp2", "bp3", "bp4", "bp5", "bp6", "bp7", "bp8"] + blanks + blanks + blanks + blanks
  {
    PawnsSpelled();
    var blanks := [" ", " ", " ", " ", " ", " ", " ", " "];
    var p := PlacePawns("b");
    assert p[8..] == blanks + blanks + blanks + blanks;
    assert p == p[..8] + p[8..];
  }

  /** The generated layout equals the literal list of the single-file engine. */
  lemma LayoutIsLiteral()
    ensures PlaceChessPieces() == ChessPiecesLiteral
  {
    BackRankSpelled();
    PawnsSpelled();
    BlackPawnPassSpelled();
  }
}
