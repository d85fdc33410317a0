/** The six move generators of the modular engine, one file each under
    `pieces/`. Each is a function of the origin square alone (the pawn
    also of its colour letter); none of them looks at the board. */
module Pieces {
  import opened Common
  import opened Notation
  import opened Geometry

  /** `rook_moves`: toward rank 1, toward rank 8, toward file h, toward file a. */
  const RookDirs: seq<Offset> := [Offset(0, 1), Offset(0, -1), Offset(1, 0), Offset(-1, 0)]

  /** `bishop_moves`. */
  const BishopDirs: seq<Offset> := [Offset(1, 1), Offset(1, -1), Offset(-1, 1), Offset(-1, -1)]

  /** `queen_moves`: the rook directions, then the bishop directions. */
  const QueenDirs: seq<Offset> := [
    Offset(0, 1), Offset(0, -1), Offset(1, 0), Offset(-1, 0),
    Offset(1, 1), Offset(1, -1), Offset(-1, 1), Offset(-1, -1)]

  /** `knight_moves`. */
  const KnightOffsets: seq<Offset> := [
    Offset(-2, -1), Offset(-2, 1), Offset(-1, -2), Offset(-1, 2),
    Offset(1, -2), Offset(1, 2), Offset(2, -1), Offset(2, 1)]

  /** `row_offsets` and `column_offsets` of the king. */
  const KingDeltas: seq<int> := [-1, 0, 1]

  /** `itertools.product(xs, ys)`: the first list varies slowest. */
  function Product(xs: seq<int>, ys: seq<int>): (r: seq<Offset>) {
    if |xs| == 0 then [] else Pair(xs[0], ys) + Product(xs[1..], ys)
  }

  function Pair(x: int, ys: seq<int>): (r: seq<Offset>) {
    if |ys| == 0 then [] else [Offset(x, ys[0])] + Pair(x, ys[1..])
  }

  /** Drops the `(0, 0)` offset, the king's `!= (0, 0)` condition. */
  function NonZero(offs: seq<Offset>): (r: seq<Offset>) {
    if |offs| == 0 then []
    else if offs[0] == Offset(0, 0) then NonZero(offs[1..])
    else [offs[0]] + NonZero(offs[1..])
  }

  function KingOffsets(): (r: seq<Offset>) {
    NonZero(Product(KingDeltas, KingDeltas))
  }

  // ---------------------------------------------------------------------
  // Generators on coordinates

  function KingTargets(o: Sq): (r: seq<Sq>) {
    Jumps(o, KingOffsets())
  }

  function KnightTargets(o: Sq): (r: seq<Sq>) {
    Jumps(o, KnightOffsets)
  }

  function RookTargets(o: Sq): (r: seq<Sq>)
    requires OnBoard(o)
  {
    Slide(o, RookDirs)
  }

  function BishopTargets(o: Sq): (r: seq<Sq>)
    requires OnBoard(o)
  {
    Slide(o, BishopDirs)
  }

  function QueenTargets(o: Sq): (r: seq<Sq>)
    requires OnBoard(o)
  {
    Slide(o, QueenDirs)
  }

  // ---------------------------------------------------------------------
  // Generators on names, as `get_valid_move` returns them

  function KingMoves(origin: string): (r: seq<string>)
    requires IsSquareName(origin)
  {
    Names(KingTargets(SquareOf(origin)))
  }

  function KnightMoves(origin: string): (r: seq<string>)
    requires IsSquareName(origin)
  {
    Names(KnightTargets(SquareOf(origin)))
  }

  function RookMoves(origin: string): (r: seq<string>)
    requires IsSquareName(origin)
  {
    Names(RookTargets(SquareOf(origin)))
  }

  function BishopMoves(origin: string): (r: seq<string>)
    requires IsSquareName(origin)
  {
    Names(BishopTargets(SquareOf(origin)))
  }

  function QueenMoves(origin: string): (r: seq<string>)
    requires IsSquareName(origin)
  {
    Names(QueenTargets(SquareOf(origin)))
  }

  /** `Pawn.get_valid_move`. The colour letter (first letter of the
      coloured token) selects the row offset, -1 for white (toward rank 8)
      and +1 for black. A pawn on the second row from either edge (rank 7
      or rank 2) gets one and two steps, whatever its colour; any other
      pawn one step. Subscripts of `"87654321"` follow Python: a negative
      index wraps to the end, a too-large one raises (`None`). */
  function PawnMoves(origin: string, colour: char): (r: Option<seq<string>>)
    requires IsSquareName(origin)
    requires colour == 'w' || colour == 'b'
  {
    PawnFrom(SquareOf(origin), colour)
  }

  /** The body of `Pawn.get_valid_move` once the origin is parsed. */
  function PawnFrom(o: Sq, colour: char): (r: Option<seq<string>>)
    requires OnBoard(o)
    requires colour == 'w' || colour == 'b'
  {
    var opt := if colour == 'w' then -1 else 1;
    if o.row == 1 || o.row == 6 then
      match (PyIndex(RanksDesc, o.row + opt), PyIndex(RanksDesc, o.row + 2 * opt))
      case (Some(one), Some(two)) => Some([[Files[o.file], one], [Files[o.file], two]])
      case _ => None
    else
      match PyIndex(RanksDesc, o.row + opt)
      case Some(one) => Some([[Files[o.file], one]])
      case None => None
  }

  // ---------------------------------------------------------------------
  // Properties

  lemma PairSpelled(x: int)
    ensures Pair(x, KingDeltas) == [Offset(x, -1), Offset(x, 0), Offset(x, 1)]
  {
    var d := KingDeltas;
    assert d[1..] == [0, 1] && d[1..][1..] == [1] && d[1..][1..][1..] == [];
    assert Pair(x, d[1..][1..]) == [Offset(x, 1)];
  }

  lemma ProductSpelled()
    ensures Product(KingDeltas, KingDeltas) ==
      Pair(-1, KingDeltas) + Pair(0, KingDeltas) + Pair(1, KingDeltas)
  {
    var d := KingDeltas;
    assert d[1..] == [0, 1] && d[1..][1..] == [1] && d[1..][1..][1..] == [];
    assert Product(d[1..][1..], d) == Pair(1, d);
  }

  lemma {:induction false} NonZeroConcat(a: seq<Offset>, b: seq<Offset>)
    ensures NonZero(a + b) == NonZero(a) + NonZero(b)
  {
    if |a| == 0 {
      assert a + b == b;
    } else {
      assert (a + b)[1..] == a[1..] + b;
      NonZeroConcat(a[1..], b);
    }
  }

  /** The eight king offsets in `itertools.product` order. */
  lemma KingOffsetsSpelled()
    ensures KingOffsets() == [
      Offset(-1, -1), Offset(-1, 0), Offset(-1, 1), Offset(0, -1),
      Offset(0, 1), Offset(1, -1), Offset(1, 0), Offset(1, 1)]
  {
    PairSpelled(-1);
    PairSpelled(0);
    PairSpelled(1);
    ProductSpelled();
    var a, b, c := Pair(-1, KingDeltas), Pair(0, KingDeltas), Pair(1, KingDeltas);
    NonZeroConcat(a + b, c);
    NonZeroConcat(a, b);
    NonZeroTriple(Offset(-1, -1), Offset(-1, 0), Offset(-1, 1));
    NonZeroTriple(Offset(0, -1), Offset(0, 0), Offset(0, 1));
    NonZeroTriple(Offset(1, -1), Offset(1, 0), Offset(1, 1));
  }

  lemma NonZeroTriple(x: Offset, y: Offset, z: Offset)
    ensures NonZero([x, y, z]) ==
      (if x == Offset(0, 0) then [] else [x]) +
      (if y == Offset(0, 0) then [] else [y]) +
      (if z == Offset(0, 0) then [] else [z])
  {
    assert [x, y, z] == [x] + [y] + [z];
    NonZeroConcat([x] + [y], [z]);
    NonZeroConcat([x], [y]);
    assert NonZero([x]) == if x == Offset(0, 0) then [] else [x] by {
      assert [x][1..] == [];
    }
    assert NonZero([y]) == if y == Offset(0, 0) then [] else [y] by {
      assert [y][1..] == [];
    }
    assert NonZero([z]) == if z == Offset(0, 0) then [] else [z] by {
      assert [z][1..] == [];
    }
  }

  /** The king offsets are the eight unit steps, in increasing order. */
  lemma KingOffsetsFacts()
    ensures LexSorted(KingOffsets()) && Distinct(KingOffsets())
    ensures forall d :: d in KingOffsets() <==> Unit(d)
  {
    KingOffsetsSpelled();
    SortedByNeighbours(KingOffsets());
  }

  /** A knight leap: one file and two rows, or two files and one row. */
  predicate Leap(d: Offset) {
    (Abs(d.df) == 1 && Abs(d.dr) == 2) || (Abs(d.df) == 2 && Abs(d.dr) == 1)
  }

  /** The knight offsets are the eight leaps, in increasing order. */
  lemma KnightOffsetsFacts()
    ensures LexSorted(KnightOffsets) && Distinct(KnightOffsets)
    ensures forall d :: d in KnightOffsets <==> Leap(d)
  {
    SortedByNeighbours(KnightOffsets);
  }

  /** King: exactly the neighbouring squares, each once, in
      `itertools.product` order (file offset outer, row offset inner). */
  lemma KingTargetsMembers(o: Sq)
    requires OnBoard(o)
    ensures forall t :: t in KingTargets(o) <==> OnBoard(t) && t != o && Cheb(o, t) == 1
    ensures Distinct(KingTargets(o))
    ensures forall i, j :: 0 <= i < j < |KingTargets(o)| ==>
      LexLess(Diff(o, KingTargets(o)[i]), Diff(o, KingTargets(o)[j]))
  {
    KingOffsetsFacts();
    var offs := KingOffsets();
    forall t ensures t in KingTargets(o) <==> OnBoard(t) && t != o && Cheb(o, t) == 1 {
      JumpsMembers(o, offs, t);
    }
    JumpsDistinct(o, offs);
    JumpsOrdered(o, offs);
  }

  /** Three neighbours are on the board wherever the king stands. */
  lemma KingAtLeastThree(o: Sq)
    requires OnBoard(o)
    ensures 3 <= |KingTargets(o)|
  {
    KingOffsetsFacts();
    var offs := KingOffsets();
    var sf := if o.file < 4 then 1 else -1;
    var sr := if o.row < 4 then 1 else -1;
    var a, b, c := Offset(sf, 0), Offset(0, sr), Offset(sf, sr);
    assert a in offs && b in offs && c in offs;
    JumpsMembers(o, offs, Shift(o, a));
    JumpsMembers(o, offs, Shift(o, b));
    JumpsMembers(o, offs, Shift(o, c));
    JumpsDistinct(o, offs);
    ThreeCovered(KingTargets(o), Shift(o, a), Shift(o, b), Shift(o, c));
  }

  /** A list without repeats holding three different values has at least
      three entries. */
  lemma ThreeCovered<T>(s: seq<T>, a: T, b: T, c: T)
    requires Distinct(s) && a in s && b in s && c in s
    requires a != b && b != c && a != c
    ensures 3 <= |s|
  {
    assert |{a, b, c}| == 3;
    DistinctCovers(s, {a, b, c});
  }

  /** Away from the edge no offset is dropped. */
  lemma KingCentre(o: Sq)
    requires 0 < o.file < 7 && 0 < o.row < 7
    ensures |KingTargets(o)| == 8
  {
    var offs := KingOffsets();
    KingOffsetsFacts();
    KingOffsetsSpelled();
    forall i | 0 <= i < |offs| ensures OnBoard(Shift(o, offs[i])) {
      assert Unit(offs[i]);
    }
    JumpsAllOnBoard(o, offs);
  }

  /** King: exactly the neighbouring squares, each once, in
      `itertools.product` order; 3 to 8 moves, all 8 away from the edge. */
  lemma KingTargetsFacts(o: Sq)
    requires OnBoard(o)
    ensures forall t :: t in KingTargets(o) <==> OnBoard(t) && t != o && Cheb(o, t) == 1
    ensures Distinct(KingTargets(o))
    ensures 3 <= |KingTargets(o)| <= 8
    ensures 0 < o.file < 7 && 0 < o.row < 7 ==> |KingTargets(o)| == 8
    ensures forall i, j :: 0 <= i < j < |KingTargets(o)| ==>
      LexLess(Diff(o, KingTargets(o)[i]), Diff(o, KingTargets(o)[j]))
  {
    KingTargetsMembers(o);
    KingAtLeastThree(o);
    KingOffsetsSpelled();
    if 0 < o.file < 7 && 0 < o.row < 7 {
      KingCentre(o);
    }
  }

  /** Knight: exactly the on-board squares a leap away, each once, in the
      order of `knight_moves`. */
  lemma KnightTargetsMembers(o: Sq)
    requires OnBoard(o)
    ensures forall t :: t in KnightTargets(o) <==> OnBoard(t) && Leap(Diff(o, t))
    ensures Distinct(KnightTargets(o))
    ensures forall i, j :: 0 <= i < j < |KnightTargets(o)| ==>
      LexLess(Diff(o, KnightTargets(o)[i]), Diff(o, KnightTargets(o)[j]))
  {
    KnightOffsetsFacts();
    forall t ensures t in KnightTargets(o) <==> OnBoard(t) && Leap(Diff(o, t)) {
      JumpsMembers(o, KnightOffsets, t);
    }
    JumpsDistinct(o, KnightOffsets);
    JumpsOrdered(o, KnightOffsets);
  }

  /** In the centre no leap is dropped. */
  lemma KnightCentre(o: Sq)
    requires 2 <= o.file <= 5 && 2 <= o.row <= 5
    ensures |KnightTargets(o)| == 8
  {
    KnightOffsetsFacts();
    forall i | 0 <= i < |KnightOffsets| ensures OnBoard(Shift(o, KnightOffsets[i])) {
      assert Leap(KnightOffsets[i]);
    }
    JumpsAllOnBoard(o, KnightOffsets);
  }

  /** A corner square `o` has exactly the two leaps `a` and `b`. */
  lemma CornerPair(o: Sq, a: Sq, b: Sq)
    requires OnBoard(o) && a != b
    requires forall t :: OnBoard(t) && Leap(Diff(o, t)) <==> t == a || t == b
    ensures |KnightTargets(o)| == 2
  {
    KnightTargetsMembers(o);
    DistinctLength(KnightTargets(o), {a, b});
  }

  /** From a corner two leaps remain. */
  lemma KnightCorner(o: Sq)
    requires (o.file == 0 || o.file == 7) && (o.row == 0 || o.row == 7)
    ensures |KnightTargets(o)| == 2
  {
    if o == Sq(0, 0) {
      CornerPair(o, Sq(1, 2), Sq(2, 1));
    } else if o == Sq(0, 7) {
      CornerPair(o, Sq(1, 5), Sq(2, 6));
    } else if o == Sq(7, 0) {
      CornerPair(o, Sq(6, 2), Sq(5, 1));
    } else {
      CornerPair(o, Sq(6, 5), Sq(5, 6));
    }
  }

  /** Knight: at most 8 moves, 8 when the file is c..f and the rank 3..6,
      2 from a corner. */
  lemma KnightTargetsFacts(o: Sq)
    requires OnBoard(o)
    ensures forall t :: t in KnightTargets(o) <==> OnBoard(t) && Leap(Diff(o, t))
    ensures Distinct(KnightTargets(o))
    ensures |KnightTargets(o)| <= 8
    ensures 2 <= o.file <= 5 && 2 <= o.row <= 5 ==> |KnightTargets(o)| == 8
    ensures (o.file == 0 || o.file == 7) && (o.row == 0 || o.row == 7) ==> |KnightTargets(o)| == 2
    ensures forall i, j :: 0 <= i < j < |KnightTargets(o)| ==>
      LexLess(Diff(o, KnightTargets(o)[i]), Diff(o, KnightTargets(o)[j]))
  {
    KnightTargetsMembers(o);
    if 2 <= o.file <= 5 && 2 <= o.row <= 5 {
      KnightCentre(o);
    }
    if (o.file == 0 || o.file == 7) && (o.row == 0 || o.row == 7) {
      KnightCorner(o);
    }
  }

  lemma RookUnfold(o: Sq)
    requires OnBoard(o)
    ensures RookTargets(o) ==
      Ray(o, Offset(0, 1)) + Ray(o, Offset(0, -1)) + Ray(o, Offset(1, 0)) + Ray(o, Offset(-1, 0))
  {
    SlideFour(o, RookDirs);
  }

  lemma BishopUnfold(o: Sq)
    requires OnBoard(o)
    ensures BishopTargets(o) ==
      Ray(o, Offset(1, 1)) + Ray(o, Offset(1, -1)) + Ray(o, Offset(-1, 1)) + Ray(o, Offset(-1, -1))
  {
    SlideFour(o, BishopDirs);
  }

  /** Rook: exactly the squares sharing the file or the rank, each once. */
  lemma RookMembers(o: Sq)
    requires OnBoard(o)
    ensures Distinct(RookTargets(o))
    ensures forall t :: t in RookTargets(o) <==>
      OnBoard(t) && t != o && (t.file == o.file || t.row == o.row)
  {
    var r := RookTargets(o);
    SlideDistinct(o, RookDirs);
    forall t ensures t in r <==> OnBoard(t) && t != o && (t.file == o.file || t.row == o.row) {
      SlideMembers(o, RookDirs, t);
      if OnBoard(t) && t != o && (t.file == o.file || t.row == o.row) {
        if t.file == o.file && t.row > o.row {
          assert Ahead(o, RookDirs[0], t);
        } else if t.file == o.file {
          assert Ahead(o, RookDirs[1], t);
        } else if t.file > o.file {
          assert Ahead(o, RookDirs[2], t);
        } else {
          assert Ahead(o, RookDirs[3], t);
        }
      }
    }
  }

  /** The rook ray toward rank 1, spelled out. */
  lemma RayTowardRank1(o: Sq)
    requires OnBoard(o)
    ensures |Ray(o, Offset(0, 1))| == 7 - o.row
    ensures forall k :: 0 <= k < 7 - o.row ==> Ray(o, Offset(0, 1))[k] == Sq(o.file, o.row + k + 1)
  {
    forall k | 0 <= k < 7 - o.row ensures Ray(o, Offset(0, 1))[k] == Sq(o.file, o.row + k + 1) {
      RayAt(o, Offset(0, 1), k);
    }
  }

  /** The rook ray toward rank 8, spelled out. */
  lemma RayTowardRank8(o: Sq)
    requires OnBoard(o)
    ensures |Ray(o, Offset(0, -1))| == o.row
    ensures forall k :: 0 <= k < o.row ==> Ray(o, Offset(0, -1))[k] == Sq(o.file, o.row - k - 1)
  {
    forall k | 0 <= k < o.row ensures Ray(o, Offset(0, -1))[k] == Sq(o.file, o.row - k - 1) {
      RayAt(o, Offset(0, -1), k);
    }
  }

  /** The rook ray toward file h, spelled out. */
  lemma RayTowardFileH(o: Sq)
    requires OnBoard(o)
    ensures |Ray(o, Offset(1, 0))| == 7 - o.file
    ensures forall k :: 0 <= k < 7 - o.file ==> Ray(o, Offset(1, 0))[k] == Sq(o.file + k + 1, o.row)
  {
    forall k | 0 <= k < 7 - o.file ensures Ray(o, Offset(1, 0))[k] == Sq(o.file + k + 1, o.row) {
      RayAt(o, Offset(1, 0), k);
    }
  }

  /** The rook ray toward file a, spelled out. */
  lemma RayTowardFileA(o: Sq)
    requires OnBoard(o)
    ensures |Ray(o, Offset(-1, 0))| == o.file
    ensures forall k :: 0 <= k < o.file ==> Ray(o, Offset(-1, 0))[k] == Sq(o.file - k - 1, o.row)
  {
    forall k | 0 <= k < o.file ensures Ray(o, Offset(-1, 0))[k] == Sq(o.file - k - 1, o.row) {
      RayAt(o, Offset(-1, 0), k);
    }
  }

  /** Rook: 14 squares from anywhere, emitted toward rank 1, toward rank 8,
      toward file h, toward file a, each ray nearest first. */
  lemma RookOrder(o: Sq)
    requires OnBoard(o)
    ensures |RookTargets(o)| == 14
    ensures forall k :: 0 <= k < 7 - o.row ==> RookTargets(o)[k] == Sq(o.file, o.row + k + 1)
    ensures forall k :: 7 - o.row <= k < 7 ==> RookTargets(o)[k] == Sq(o.file, 6 - k)
    ensures forall k :: 7 <= k < 14 - o.file ==> RookTargets(o)[k] == Sq(o.file + k - 6, o.row)
    ensures forall k :: 14 - o.file <= k < 14 ==> RookTargets(o)[k] == Sq(13 - k, o.row)
  {
    RookUnfold(o);
    RayTowardRank1(o);
    RayTowardRank8(o);
    RayTowardFileH(o);
    RayTowardFileA(o);
    var r := RookTargets(o);
    var d0, d1, d2, d3 := Ray(o, Offset(0, 1)), Ray(o, Offset(0, -1)), Ray(o, Offset(1, 0)), Ray(o, Offset(-1, 0));
    assert r == d0 + d1 + d2 + d3;
    forall k | 0 <= k < 7 - o.row ensures r[k] == Sq(o.file, o.row + k + 1) {
      assert r[k] == d0[k];
    }
    forall k | 7 - o.row <= k < 7 ensures r[k] == Sq(o.file, 6 - k) {
      assert r[k] == d1[k - (7 - o.row)];
    }
    forall k | 7 <= k < 14 - o.file ensures r[k] == Sq(o.file + k - 6, o.row) {
      assert r[k] == d2[k - 7];
    }
    forall k | 14 - o.file <= k < 14 ensures r[k] == Sq(13 - k, o.row) {
      assert r[k] == d3[k - (14 - o.file)];
    }
  }

  /** Rook: 14 distinct squares from any square, exactly those sharing the
      file or the rank, in the order of `rook_moves`. */
  lemma RookTargetsFacts(o: Sq)
    requires OnBoard(o)
    ensures |RookTargets(o)| == 14
    ensures Distinct(RookTargets(o))
    ensures forall t :: t in RookTargets(o) <==>
      OnBoard(t) && t != o && (t.file == o.file || t.row == o.row)
    ensures forall k :: 0 <= k < 7 - o.row ==> RookTargets(o)[k] == Sq(o.file, o.row + k + 1)
    ensures forall k :: 7 - o.row <= k < 7 ==> RookTargets(o)[k] == Sq(o.file, 6 - k)
    ensures forall k :: 7 <= k < 14 - o.file ==> RookTargets(o)[k] == Sq(o.file + k - 6, o.row)
    ensures forall k :: 14 - o.file <= k < 14 ==> RookTargets(o)[k] == Sq(13 - k, o.row)
  {
    RookMembers(o);
    RookOrder(o);
  }

  /** Bishop: exactly the squares on a common diagonal, each once. */
  lemma BishopMembers(o: Sq)
    requires OnBoard(o)
    ensures Distinct(BishopTargets(o))
    ensures forall t :: t in BishopTargets(o) <==>
      OnBoard(t) && t != o && Diagonal(o, t)
  {
    var r := BishopTargets(o);
    SlideDistinct(o, BishopDirs);
    forall t ensures t in r <==> OnBoard(t) && t != o && Diagonal(o, t) {
      SlideMembers(o, BishopDirs, t);
      if OnBoard(t) && t != o && Diagonal(o, t) {
        if t.file > o.file && t.row > o.row {
          assert Ahead(o, BishopDirs[0], t);
        } else if t.file > o.file {
          assert Ahead(o, BishopDirs[1], t);
        } else if t.row > o.row {
          assert Ahead(o, BishopDirs[2], t);
        } else {
          assert Ahead(o, BishopDirs[3], t);
        }
      }
    }
  }

  /** Bishop: 7 squares from the edge of the board up to 13 from the centre. */
  lemma BishopLength(o: Sq)
    requires OnBoard(o)
    ensures 7 <= |BishopTargets(o)| <= 13
  {
    BishopUnfold(o);
    var f, r := o.file, o.row;
    assert |Ray(o, Offset(1, 1))| == Min(7 - f, 7 - r);
    assert |Ray(o, Offset(1, -1))| == Min(7 - f, r);
    assert |Ray(o, Offset(-1, 1))| == Min(f, 7 - r);
    assert |Ray(o, Offset(-1, -1))| == Min(f, r);
    DiagonalCount(f, r);
  }

  /** The four diagonal ray lengths from file `f`, row `r` add up to
      between 7 and 13: `14 - |f - r| - |f + r - 7|`, and the two distances
      have different parity so they are never both zero. */
  lemma DiagonalCount(f: int, r: int)
    requires 0 <= f < 8 && 0 <= r < 8
    ensures 7 <= Min(7 - f, 7 - r) + Min(7 - f, r) + Min(f, 7 - r) + Min(f, r) <= 13
  {
    assert Min(7 - f, 7 - r) + Min(f, r) == 7 - Abs(f - r);
    assert Min(7 - f, r) + Min(f, 7 - r) == 7 - Abs(f + r - 7);
    assert Abs(f - r) + Abs(f + r - 7) <= 7;
    assert Abs(f - r) != Abs(f + r - 7) || Abs(f - r) > 0;
  }

  /** Bishop: every square reached has the origin's square colour. */
  lemma BishopColour(o: Sq)
    requires OnBoard(o)
    ensures forall t :: t in BishopTargets(o) ==> (t.file + t.row) % 2 == (o.file + o.row) % 2
  {
    BishopMembers(o);
    forall t | t in BishopTargets(o) ensures (t.file + t.row) % 2 == (o.file + o.row) % 2 {
      DiagonalSameColour(o, t);
    }
  }

  /** Two squares on a common diagonal have the same square colour. */
  lemma DiagonalSameColour(o: Sq, t: Sq)
    requires Diagonal(o, t)
    ensures (t.file + t.row) % 2 == (o.file + o.row) % 2
  {
    var x, d := o.file + o.row, t.row - o.row;
    if t.file - o.file == d {
      assert t.file + t.row == x + 2 * d;
      ParityShift(x, d);
    } else {
      assert t.file + t.row == x;
    }
  }

  lemma ParityShift(x: int, d: int)
    ensures (x + 2 * d) % 2 == x % 2
  {
    var q, r := x / 2, x % 2;
    assert x + 2 * d == 2 * (q + d) + r;
  }

  /** Bishop: the on-board squares with equal, non-zero file and rank
      distance, each once; all of the origin's square colour; 7 (edge) to
      13 (centre) of them. */
  lemma BishopTargetsFacts(o: Sq)
    requires OnBoard(o)
    ensures 7 <= |BishopTargets(o)| <= 13
    ensures Distinct(BishopTargets(o))
    ensures forall t :: t in BishopTargets(o) <==>
      OnBoard(t) && t != o && Diagonal(o, t)
    ensures forall t :: t in BishopTargets(o) ==> (t.file + t.row) % 2 == (o.file + o.row) % 2
  {
    BishopMembers(o);
    BishopLength(o);
    BishopColour(o);
  }

  /** No square is both a rook move and a bishop move. */
  lemma RookBishopDisjoint(o: Sq)
    requires OnBoard(o)
    ensures forall t :: t in RookTargets(o) ==> t !in BishopTargets(o)
  {
    RookMembers(o);
    BishopMembers(o);
  }

  /** Queen: the rook's list followed by the bishop's, so exactly the
      squares sharing file, rank or a diagonal, each once, 21 to 27 of them. */
  lemma QueenTargetsFacts(o: Sq)
    requires OnBoard(o)
    ensures QueenTargets(o) == RookTargets(o) + BishopTargets(o)
    ensures 21 <= |QueenTargets(o)| <= 27
    ensures Distinct(QueenTargets(o))
    ensures forall t :: t in QueenTargets(o) <==> (OnBoard(t) && t != o &&
      (t.file == o.file || t.row == o.row || Diagonal(o, t)))
  {
    assert QueenDirs == RookDirs + BishopDirs;
    SlideConcat(o, RookDirs, BishopDirs);
    RookMembers(o);
    RookOrder(o);
    BishopMembers(o);
    BishopLength(o);
    RookBishopDisjoint(o);
    DistinctConcat(RookTargets(o), BishopTargets(o));
  }

  /** Queen membership alone. */
  lemma QueenMembers(o: Sq, t: Sq)
    requires OnBoard(o)
    ensures t in QueenTargets(o) <==> (OnBoard(t) && t != o &&
      (t.file == o.file || t.row == o.row || Diagonal(o, t)))
  {
    QueenTargetsFacts(o);
  }

  /** `"87654321"[k]` for an index inside the list. */
  lemma RankSubscript(k: int)
    requires 0 <= k < 8
    ensures PyIndex(RanksDesc, k) == Some(RanksDesc[k])
  {
  }

  /** Pawn, white: one step toward rank 8, two from rank 2 (row 6); from
      rank 7 (row 1) the second step and from rank 8 (row 0) the only
      step wrap to rank 1 through a negative subscript. */
  lemma WhitePawnFacts(o: Sq)
    requires OnBoard(o)
    ensures o.row == 6 ==> PawnFrom(o, 'w') == Some([Name(Sq(o.file, 5)), Name(Sq(o.file, 4))])
    ensures o.row >= 2 && o.row != 6 ==> PawnFrom(o, 'w') == Some([Name(Sq(o.file, o.row - 1))])
    ensures o.row == 1 ==> PawnFrom(o, 'w') == Some([Name(Sq(o.file, 0)), Name(Sq(o.file, 7))])
    ensures o.row == 0 ==> PawnFrom(o, 'w') == Some([Name(Sq(o.file, 7))])
  {
    if o.row >= 1 {
      RankSubscript(o.row - 1);
    }
    if o.row == 6 {
      RankSubscript(4);
    }
    assert PyIndex(RanksDesc, -1) == Some(RanksDesc[7]);
  }

  /** Pawn, black: one step toward rank 1, two from rank 7 (row 1); from
      rank 2 and rank 1 (rows 6 and 7) the subscript runs past the end and
      raises. */
  lemma BlackPawnFacts(o: Sq)
    requires OnBoard(o)
    ensures PawnFrom(o, 'b').None? <==> o.row >= 6
    ensures o.row == 1 ==> PawnFrom(o, 'b') == Some([Name(Sq(o.file, 2)), Name(Sq(o.file, 3))])
    ensures o.row < 6 && o.row != 1 ==> PawnFrom(o, 'b') == Some([Name(Sq(o.file, o.row + 1))])
  {
    if o.row < 7 {
      RankSubscript(o.row + 1);
    }
    if o.row == 1 {
      RankSubscript(3);
    }
  }

  /** Pawn: the file never changes. A white pawn steps toward rank 8 and a
      black pawn toward rank 1; from rank 7 or rank 2 (row 1 or 6) both one
      and two steps are offered whatever the colour, elsewhere one step.
      A black pawn on rank 2 or 1 raises; a white pawn on rank 8 or 7
      wraps around to rank 1 through a negative subscript. */
  lemma PawnMovesFacts(origin: string, colour: char)
    requires IsSquareName(origin)
    requires colour == 'w' || colour == 'b'
    ensures var o := SquareOf(origin);
      PawnMoves(origin, colour).None? <==> colour == 'b' && o.row >= 6
    ensures var o := SquareOf(origin);
      colour == 'w' && o.row == 6 ==>
        PawnMoves(origin, colour) == Some([Name(Sq(o.file, 5)), Name(Sq(o.file, 4))])
    ensures var o := SquareOf(origin);
      colour == 'w' && 2 <= o.row && o.row != 6 ==>
        PawnMoves(origin, colour) == Some([Name(Sq(o.file, o.row - 1))])
    ensures var o := SquareOf(origin);
      colour == 'w' && o.row == 1 ==>
        PawnMoves(origin, colour) == Some([Name(Sq(o.file, 0)), Name(Sq(o.file, 7))])
    ensures var o := SquareOf(origin);
      colour == 'w' && o.row == 0 ==>
        PawnMoves(origin, colour) == Some([Name(Sq(o.file, 7))])
    ensures var o := SquareOf(origin);
      colour == 'b' && o.row == 1 ==>
        PawnMoves(origin, colour) == Some([Name(Sq(o.file, 2)), Name(Sq(o.file, 3))])
    ensures var o := SquareOf(origin);
      colour == 'b' && o.row < 6 && o.row != 1 ==>
        PawnMoves(origin, colour) == Some([Name(Sq(o.file, o.row + 1))])
  {
    var o := SquareOf(origin);
    WhitePawnFacts(o);
    BlackPawnFacts(o);
  }

  /** Only a black pawn on rank 2 or rank 1 has no list. */
  lemma PawnHasList(o: Sq, colour: char)
    requires OnBoard(o) && (colour == 'w' || colour == 'b')
    ensures PawnFrom(o, colour).Some? <==> colour == 'w' || o.row < 6
  {
    BlackPawnFacts(o);
  }

  /** Whatever the colour and rank, a pawn is only ever offered squares on
      its own file. */
  lemma PawnFile(o: Sq, colour: char, name: string)
    requires OnBoard(o)
    requires colour == 'w' || colour == 'b'
    requires PawnFrom(o, colour).Some? && name in PawnFrom(o, colour).value
    ensures IsSquareName(name) && SquareOf(name).file == o.file
  {
    WhitePawnFacts(o);
    BlackPawnFacts(o);
    var moves := PawnFrom(o, colour).value;
    var k :| 0 <= k < |moves| && moves[k] == name;
    var r: int :| 0 <= r < 8 && name == Name(Sq(o.file, r));
    SquareOfName(Sq(o.file, r));
  }
}
