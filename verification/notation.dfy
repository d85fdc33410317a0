/** The 64-square board and its algebraic names (`highlight_moves.py`,
    and the hard-coded `square_name` list of `terminalchess.py`).

    Board index `i` names file `"abcdefgh"[i % 8]` and rank `8 - i / 8`:
    index 0 is `"a8"`, index 63 is `"h1"`. */
module Notation {
  import opened Common

  /** File letters; the piece classes call this list `rows`. */
  const Files: string := "abcdefgh"

  /** Rank digits top to bottom; the piece classes call this list `columns`. */
  const RanksDesc: string := "87654321"

  /** Rank digits bottom to top, as `restricted_invalid_moves.py` lists them. */
  const RanksAsc: string := "12345678"

  /** A square as the piece classes index it: `file` into `Files` and
      `row` into `RanksDesc`, so row 0 is rank 8 and the board index is
      `row * 8 + file`. */
  datatype Sq = Sq(file: int, row: int)

  predicate OnBoard(s: Sq) {
    0 <= s.file < 8 && 0 <= s.row < 8
  }

  /** Board index of a square. */
  function Index(s: Sq): (r: nat)
    requires OnBoard(s)
  {
    s.row * 8 + s.file
  }

  /** Square at a board index. */
  function SqAt(i: int): (r: Sq)
    requires 0 <= i < 64
  {
    Sq(i % 8, i / 8)
  }

  /** `rows[file] + columns[row]`: how every generator spells a square. */
  function Name(s: Sq): (r: string)
    requires OnBoard(s)
  {
    [Files[s.file], RanksDesc[s.row]]
  }

  /** Python's `str(d)` for a single decimal digit. */
  function Digit(d: int): (r: char)
    requires 0 <= d <= 9
  {
    (48 + d) as char
  }

  /** One pass of the inner loop of `generate_algebraic_notation`: the
      eight files of one rank, a to h. */
  function RankRow(rank: int): (r: seq<string>)
    requires 1 <= rank <= 8
  {
    seq(8, j requires 0 <= j < 8 => [Files[j], Digit(rank)])
  }

  /** The outer loop of `generate_algebraic_notation`, ranks `rank` down to 1. */
  function TableFrom(rank: int): (r: seq<string>)
    requires 0 <= rank <= 8
    decreases rank
  {
    if rank == 0 then [] else RankRow(rank) + TableFrom(rank - 1)
  }

  /** The square-name table (`square_algebraic_notation`, `cell_name`). */
  function Table(): (r: seq<string>) {
    TableFrom(8)
  }

  /** A string that is the name of some square: a file letter followed
      by a rank digit (`SquareNameInTable` shows these are the table's
      entries). */
  predicate IsSquareName(name: string) {
    |name| == 2 && name[0] in Files && name[1] in RanksDesc
  }

  /** `rows.index(name[0])` and `columns.index(name[1])` of the piece
      classes; `None` where Python would raise. */
  function Coords(name: string): (r: Option<Sq>) {
    if |name| < 2 then None
    else
      match (IndexOf(Files, name[0]), IndexOf(RanksDesc, name[1]))
      case (Some(f), Some(r)) => Some(Sq(f, r))
      case _ => None
  }

  /** The square a table name denotes. */
  function SquareOf(name: string): (s: Sq)
    requires IsSquareName(name)
    ensures OnBoard(s) && Name(s) == name
    ensures Coords(name) == Some(s)
  {
    CoordsOfSquareName(name);
    Coords(name).value
  }

  /** A square name parses: its letter and digit are found among the labels
      and spell the name back. */
  lemma CoordsOfSquareName(name: string)
    requires IsSquareName(name)
    ensures Coords(name).Some? && OnBoard(Coords(name).value)
    ensures Name(Coords(name).value) == name
  {
    var f, r := IndexOf(Files, name[0]), IndexOf(RanksDesc, name[1]);
    assert f.Some? && r.Some?;
    assert Coords(name) == Some(Sq(f.value, r.value));
    NameOfLabels(name, f.value, r.value);
  }

  lemma NameOfLabels(name: string, f: nat, r: nat)
    requires |name| == 2 && f < 8 && r < 8
    requires Files[f] == name[0] && RanksDesc[r] == name[1]
    ensures Name(Sq(f, r)) == name
  {
  }

  /** The hard-coded `square_name` list of `terminalchess.py`. */
  const SquareNameLiteral: seq<string> :=
    ["a8", "b8", "c8", "d8", "e8", "f8", "g8", "h8"] +
    ["a7", "b7", "c7", "d7", "e7", "f7", "g7", "h7"] +
    ["a6", "b6", "c6", "d6", "e6", "f6", "g6", "h6"] +
    ["a5", "b5", "c5", "d5", "e5", "f5", "g5", "h5"] +
    ["a4", "b4", "c4", "d4", "e4", "f4", "g4", "h4"] +
    ["a3", "b3", "c3", "d3", "e3", "f3", "g3", "h3"] +
    ["a2", "b2", "c2", "d2", "e2", "f2", "g2", "h2"] +
    ["a1", "b1", "c1", "d1", "e1", "f1", "g1", "h1"]

  // ---------------------------------------------------------------------
  // Character facts

  lemma FileChar(j: int)
    requires 0 <= j < 8
    ensures Files[j] == (97 + j) as char
  {
  }

  lemma RankDescChar(r: int)
    requires 0 <= r < 8
    ensures RanksDesc[r] == Digit(8 - r)
  {
  }

  lemma RankAscChar(k: int)
    requires 0 <= k < 8
    ensures RanksAsc[k] == Digit(k + 1)
  {
  }

  /** In a list whose entry `j` occurs nowhere else, `index` finds `j`. */
  lemma IndexOfUnique<T>(s: seq<T>, j: int)
    requires 0 <= j < |s|
    requires forall i :: 0 <= i < |s| && i != j ==> s[i] != s[j]
    ensures IndexOf(s, s[j]) == Some(j)
  {
  }

  /** `Files.index(Files[j]) == j`, and likewise for both rank lists. */
  lemma LabelIndices(j: int)
    requires 0 <= j < 8
    ensures IndexOf(Files, Files[j]) == Some(j)
    ensures IndexOf(RanksDesc, RanksDesc[j]) == Some(j)
    ensures IndexOf(RanksAsc, RanksAsc[j]) == Some(j)
  {
    forall i | 0 <= i < 8
      ensures Files[i] == (97 + i) as char
      ensures RanksDesc[i] == Digit(8 - i)
      ensures RanksAsc[i] == Digit(i + 1)
    {
      FileChar(i);
      RankDescChar(i);
      RankAscChar(i);
    }
    IndexOfUnique(Files, j);
    IndexOfUnique(RanksDesc, j);
    IndexOfUnique(RanksAsc, j);
  }

  // ---------------------------------------------------------------------
  // The table

  lemma {:induction false} TableFromLength(rank: int)
    requires 0 <= rank <= 8
    ensures |TableFrom(rank)| == 8 * rank
    decreases rank
  {
    if rank > 0 {
      TableFromLength(rank - 1);
    }
  }

  /** Entry `8 * q + j` of the table built from `rank` down: file `j` of
      the rank `q` steps below `rank`. */
  lemma {:induction false} TableFromAt(rank: int, q: int, j: int)
    requires 0 <= rank <= 8 && 0 <= q < rank && 0 <= j < 8
    ensures |TableFrom(rank)| == 8 * rank
    ensures TableFrom(rank)[8 * q + j] == [Files[j], Digit(rank - q)]
    decreases rank
  {
    TableFromLength(rank);
    TableFromLength(rank - 1);
    if q > 0 {
      TableFromAt(rank - 1, q - 1, j);
      assert TableFrom(rank)[8 * q + j] == TableFrom(rank - 1)[8 * (q - 1) + j];
    } else {
      assert TableFrom(rank)[j] == RankRow(rank)[j];
    }
  }

  lemma TableFromShape(rank: int)
    requires 0 <= rank <= 8
    ensures |TableFrom(rank)| == 8 * rank
    ensures forall i :: 0 <= i < 8 * rank ==>
      TableFrom(rank)[i] == [Files[i % 8], Digit(rank - i / 8)]
  {
    TableFromLength(rank);
    forall i | 0 <= i < 8 * rank
      ensures TableFrom(rank)[i] == [Files[i % 8], Digit(rank - i / 8)]
    {
      var q, j := i / 8, i % 8;
      assert i == 8 * q + j && q < rank;
      TableFromAt(rank, q, j);
    }
  }

  /** The table has 64 entries; entry `i*8+j` is file `j` followed by the
      digit `8-i`, which is exactly `Name` of the square at that index. */
  lemma TableShape()
    ensures |Table()| == 64
    ensures forall i :: 0 <= i < 64 ==>
      Table()[i] == [Files[i % 8], Digit(8 - i / 8)]
    ensures forall i :: 0 <= i < 64 ==> Table()[i] == Name(SqAt(i))
    ensures Table()[0] == "a8" && Table()[63] == "h1"
  {
    TableFromShape(8);
    forall i | 0 <= i < 64 ensures Table()[i] == Name(SqAt(i)) {
      RankDescChar(i / 8);
    }
  }

  /** The name of an on-board square spells its coordinates back. */
  lemma CoordsOfName(s: Sq)
    requires OnBoard(s)
    ensures Coords(Name(s)) == Some(s)
  {
    LabelIndices(s.file);
    LabelIndices(s.row);
  }

  /** `Name` is one-to-one on the board. */
  lemma NameInjective(s: Sq, t: Sq)
    requires OnBoard(s) && OnBoard(t)
    ensures Name(s) == Name(t) <==> s == t
  {
    if Name(s) == Name(t) {
      CoordsOfName(s);
      CoordsOfName(t);
    }
  }

  /** The name of an on-board square parses back to that square. */
  lemma SquareOfName(s: Sq)
    requires OnBoard(s)
    ensures IsSquareName(Name(s)) && SquareOf(Name(s)) == s
  {
    NameInjective(SquareOf(Name(s)), s);
  }

  /** The 64 names are pairwise distinct. */
  lemma TableDistinct()
    ensures Distinct(Table())
  {
    TableShape();
    forall i, j | 0 <= i < j < 64 ensures Table()[i] != Table()[j] {
      NameInjective(SqAt(i), SqAt(j));
    }
  }

  /** `cell_name.index(Name(s))` is the board index of `s`. */
  lemma IndexOfName(s: Sq)
    requires OnBoard(s)
    ensures Name(s) in Table()
    ensures IndexOf(Table(), Name(s)) == Some(Index(s))
  {
    TableShape();
    TableDistinct();
    assert SqAt(Index(s)) == s;
    assert Table()[Index(s)] == Name(s);
  }

  /** The square names are exactly the table's entries, and a name sits in
      the table at the index of the square it denotes. */
  lemma SquareNameInTable(name: string)
    ensures IsSquareName(name) <==> name in Table()
    ensures IsSquareName(name) ==> IndexOf(Table(), name) == Some(Index(SquareOf(name)))
  {
    if IsSquareName(name) {
      IndexOfName(SquareOf(name));
    }
    if name in Table() {
      TableShape();
      var i :| 0 <= i < 64 && Table()[i] == name;
      var s := SqAt(i);
      assert name == [Files[s.file], RanksDesc[s.row]];
    }
  }

  /** One rank of the table, spelled out: file `j` then the rank digit. */
  lemma RankRowSpelled(rank: int)
    requires 1 <= rank <= 8
    ensures RankRow(rank) == [
      ['a', Digit(rank)], ['b', Digit(rank)], ['c', Digit(rank)], ['d', Digit(rank)],
      ['e', Digit(rank)], ['f', Digit(rank)], ['g', Digit(rank)], ['h', Digit(rank)]]
  {
  }

  /** The generated table equals the literal list of the single-file engine. */
  lemma TableIsLiteral()
    ensures Table() == SquareNameLiteral
  {
    RankRowSpelled(1);
    RankRowSpelled(2);
    RankRowSpelled(3);
    RankRowSpelled(4);
    RankRowSpelled(5);
    RankRowSpelled(6);
    RankRowSpelled(7);
    RankRowSpelled(8);
  }
}
