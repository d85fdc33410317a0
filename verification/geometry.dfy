/** Board geometry shared by the move generators: offsets, rays cast to
    the edge of the board, fixed-offset jumps, and the spelling of a list
    of squares as names. */
module Geometry {
  import opened Common
  import opened Notation

  /** A step `(row_offset, column_offset)` of the piece classes: a file
      offset and a row offset (a positive row offset goes toward rank 1). */
  datatype Offset = Offset(df: int, dr: int)

  /** One of the eight king-step directions. */
  predicate Unit(d: Offset) {
    -1 <= d.df <= 1 && -1 <= d.dr <= 1 && d != Offset(0, 0)
  }

  function Shift(s: Sq, d: Offset): (r: Sq) {
    Sq(s.file + d.df, s.row + d.dr)
  }

  /** The offset that leads from `s` to `t`. */
  function Diff(s: Sq, t: Sq): (r: Offset) {
    Offset(t.file - s.file, t.row - s.row)
  }

  function Abs(x: int): (r: nat) {
    if x < 0 then -x else x
  }

  function Sign(x: int): (r: int) {
    if x > 0 then 1 else if x < 0 then -1 else 0
  }

  function Min(a: int, b: int): (r: int) { if a < b then a else b }
  function Max(a: int, b: int): (r: int) { if a < b then b else a }

  /** Chebyshev distance: the number of king steps between two squares. */
  function Cheb(s: Sq, t: Sq): (r: nat) {
    var a := Abs(t.file - s.file);
    var b := Abs(t.row - s.row);
    if a < b then b else a
  }

  /** `s` and `t` share a diagonal (or are the same square). */
  predicate Diagonal(s: Sq, t: Sq) {
    Abs(t.file - s.file) == Abs(t.row - s.row)
  }

  /** `t` lies strictly beyond `s` on the line that starts at `s` and
      runs in direction `d`. */
  predicate Ahead(s: Sq, d: Offset, t: Sq) {
    && Sign(t.file - s.file) == d.df
    && Sign(t.row - s.row) == d.dr
    && (d.df != 0 && d.dr != 0 ==> Abs(t.file - s.file) == Abs(t.row - s.row))
  }

  /** Squares left before the edge when moving from coordinate `x` by `dx`
      (8, more than any board allows, when that coordinate does not move). */
  function Room(x: int, dx: int): (r: int) {
    if dx == 1 then 7 - x else if dx == -1 then x else 8
  }

  /** How many squares a ray from `s` in direction `d` covers. */
  function Steps(s: Sq, d: Offset): (r: int) {
    var a := Room(s.file, d.df);
    var b := Room(s.row, d.dr);
    if a < b then a else b
  }

  /** One step back along the line: a square ahead of `s + d` is ahead of
      `s`, one king step further. */
  lemma AheadStep(s: Sq, d: Offset, t: Sq)
    requires Unit(d) && Ahead(Shift(s, d), d, t)
    ensures Ahead(s, d, t) && Cheb(s, t) == Cheb(Shift(s, d), t) + 1
  {
  }

  lemma RayStep(s: Sq, d: Offset, rest: seq<Sq>)
    requires Unit(d)
    requires forall k :: 0 <= k < |rest| ==>
      Ahead(Shift(s, d), d, rest[k]) && Cheb(Shift(s, d), rest[k]) == k + 1
    ensures forall k :: 0 <= k < |rest| ==> Ahead(s, d, rest[k]) && Cheb(s, rest[k]) == k + 2
  {
    forall k | 0 <= k < |rest| ensures Ahead(s, d, rest[k]) && Cheb(s, rest[k]) == k + 2 {
      AheadStep(s, d, rest[k]);
    }
  }

  // ---------------------------------------------------------------------
  // Rays: the `while True: row += ...; col += ...` loops of the sliders

  /** The squares met stepping from `s` by `d` until the edge, nearest
      first; `s` itself is not included because the step comes before the
      bounds test. Occupancy plays no part. */
  function Ray(s: Sq, d: Offset): (r: seq<Sq>)
    requires OnBoard(s) && Unit(d)
    ensures |r| == Steps(s, d)
    ensures forall k :: 0 <= k < |r| ==>
      OnBoard(r[k]) && Ahead(s, d, r[k]) && Cheb(s, r[k]) == k + 1
    decreases Steps(s, d)
  {
    var n := Shift(s, d);
    if OnBoard(n) then
      var rest := Ray(n, d);
      RayStep(s, d, rest);
      [n] + rest
    else []
  }

  /** Every on-board square ahead of `s` in direction `d` is on the ray. */
  lemma {:induction false} RayComplete(s: Sq, d: Offset, t: Sq)
    requires OnBoard(s) && Unit(d)
    requires OnBoard(t) && Ahead(s, d, t)
    ensures t in Ray(s, d)
    decreases Steps(s, d)
  {
    var n := Shift(s, d);
    assert OnBoard(n);
    if t != n {
      RayComplete(n, d, t);
    }
  }

  /** Membership in a ray, both directions. */
  lemma RayMembers(s: Sq, d: Offset)
    requires OnBoard(s) && Unit(d)
    ensures forall t :: t in Ray(s, d) <==> OnBoard(t) && Ahead(s, d, t)
  {
    forall t | OnBoard(t) && Ahead(s, d, t) ensures t in Ray(s, d) {
      RayComplete(s, d, t);
    }
  }

  /** A ray never revisits a square. */
  lemma RayDistinct(s: Sq, d: Offset)
    requires OnBoard(s) && Unit(d)
    ensures Distinct(Ray(s, d))
  {
  }

  /** The concatenated rays of a list of directions, in list order. */
  function Slide(s: Sq, dirs: seq<Offset>): (r: seq<Sq>)
    requires OnBoard(s)
    requires forall i :: 0 <= i < |dirs| ==> Unit(dirs[i])
    ensures AllOnBoard(r)
  {
    if |dirs| == 0 then [] else Ray(s, dirs[0]) + Slide(s, dirs[1..])
  }

  lemma {:induction false} SlideConcat(s: Sq, a: seq<Offset>, b: seq<Offset>)
    requires OnBoard(s)
    requires forall i :: 0 <= i < |a| ==> Unit(a[i])
    requires forall i :: 0 <= i < |b| ==> Unit(b[i])
    ensures Slide(s, a + b) == Slide(s, a) + Slide(s, b)
  {
    if |a| > 0 {
      assert (a + b)[1..] == a[1..] + b;
      SlideConcat(s, a[1..], b);
    } else {
      assert a + b == b;
    }
  }

  /** A square is on a slide exactly when it is ahead of `s` along one of
      the directions. */
  lemma {:induction false} SlideMembers(s: Sq, dirs: seq<Offset>, t: Sq)
    requires OnBoard(s)
    requires forall i :: 0 <= i < |dirs| ==> Unit(dirs[i])
    ensures t in Slide(s, dirs) <==> OnBoard(t) && exists i :: 0 <= i < |dirs| && Ahead(s, dirs[i], t)
  {
    if |dirs| > 0 {
      RayMembers(s, dirs[0]);
      SlideMembers(s, dirs[1..], t);
      if OnBoard(t) && Ahead(s, dirs[0], t) {
        assert t in Ray(s, dirs[0]);
      }
      if exists i :: 0 <= i < |dirs| && Ahead(s, dirs[i], t) {
        var i :| 0 <= i < |dirs| && Ahead(s, dirs[i], t);
        if i > 0 {
          assert Ahead(s, dirs[1..][i - 1], t);
        }
      }
    }
  }

  /** Rays in different directions never meet, so a slide over distinct
      directions has no duplicates. */
  lemma {:induction false} SlideDistinct(s: Sq, dirs: seq<Offset>)
    requires OnBoard(s)
    requires forall i :: 0 <= i < |dirs| ==> Unit(dirs[i])
    requires Distinct(dirs)
    ensures Distinct(Slide(s, dirs))
  {
    if |dirs| > 0 {
      assert Distinct(dirs[1..]);
      SlideDistinct(s, dirs[1..]);
      RayDistinct(s, dirs[0]);
      forall t | t in Ray(s, dirs[0]) ensures t !in Slide(s, dirs[1..]) {
        RayMembers(s, dirs[0]);
        SlideMembers(s, dirs[1..], t);
      }
      DistinctConcat(Ray(s, dirs[0]), Slide(s, dirs[1..]));
    }
  }

  /** A slide over one direction is that direction's ray. */
  lemma SlideOne(s: Sq, d: Offset)
    requires OnBoard(s) && Unit(d)
    ensures Slide(s, [d]) == Ray(s, d)
  {
    assert [d][1..] == [];
  }

  /** A slide over four directions is the four rays one after another. */
  lemma SlideFour(s: Sq, dirs: seq<Offset>)
    requires OnBoard(s) && |dirs| == 4
    requires forall i :: 0 <= i < |dirs| ==> Unit(dirs[i])
    ensures Slide(s, dirs) == Ray(s, dirs[0]) + Ray(s, dirs[1]) + Ray(s, dirs[2]) + Ray(s, dirs[3])
  {
    var a, b, c, e := [dirs[0]], [dirs[1]], [dirs[2]], [dirs[3]];
    assert dirs == a + b + c + e;
    SlideConcat(s, a + b + c, e);
    SlideConcat(s, a + b, c);
    SlideConcat(s, a, b);
    SlideOne(s, dirs[0]);
    SlideOne(s, dirs[1]);
    SlideOne(s, dirs[2]);
    SlideOne(s, dirs[3]);
  }

  /** Coordinate `x` moved `n` steps in direction `dx` (-1, 0 or 1). */
  function Along(x: int, dx: int, n: int): (r: int) {
    if dx == 1 then x + n else if dx == -1 then x - n else x
  }

  /** A square `k + 1` king steps ahead of `s` in direction `d`. */
  lemma AheadAt(s: Sq, d: Offset, t: Sq, k: int)
    requires Unit(d) && Ahead(s, d, t) && Cheb(s, t) == k + 1
    ensures t == Sq(Along(s.file, d.df, k + 1), Along(s.row, d.dr, k + 1))
  {
    if d.df == 0 {
      assert t.file == s.file;
    } else if d.df == 1 {
      assert t.file > s.file;
    } else {
      assert t.file < s.file;
    }
    if d.dr == 0 {
      assert t.row == s.row;
    } else if d.dr == 1 {
      assert t.row > s.row;
    } else {
      assert t.row < s.row;
    }
  }

  /** The `k`-th square of a ray is `k + 1` steps from its start. */
  lemma RayAt(s: Sq, d: Offset, k: int)
    requires OnBoard(s) && Unit(d) && 0 <= k < |Ray(s, d)|
    ensures Ray(s, d)[k] == Sq(Along(s.file, d.df, k + 1), Along(s.row, d.dr, k + 1))
  {
    AheadAt(s, d, Ray(s, d)[k], k);
  }

  lemma {:induction false} SlideLength(s: Sq, dirs: seq<Offset>)
    requires OnBoard(s)
    requires forall i :: 0 <= i < |dirs| ==> Unit(dirs[i])
    ensures |dirs| == 0 ==> |Slide(s, dirs)| == 0
    ensures |dirs| > 0 ==> |Slide(s, dirs)| == Steps(s, dirs[0]) + |Slide(s, dirs[1..])|
  {
  }

  // ---------------------------------------------------------------------
  // Jumps: the list comprehensions of the king and the knight

  /** The squares `s + d` for the offsets `d`, in offset order, keeping
      those inside the board. */
  function Jumps(s: Sq, offs: seq<Offset>): (r: seq<Sq>)
    ensures |r| <= |offs|
    ensures forall k :: 0 <= k < |r| ==> OnBoard(r[k]) && Diff(s, r[k]) in offs
  {
    if |offs| == 0 then []
    else if OnBoard(Shift(s, offs[0])) then [Shift(s, offs[0])] + Jumps(s, offs[1..])
    else Jumps(s, offs[1..])
  }

  lemma {:induction false} JumpsMembers(s: Sq, offs: seq<Offset>, t: Sq)
    ensures t in Jumps(s, offs) <==> OnBoard(t) && Diff(s, t) in offs
  {
    if |offs| > 0 {
      JumpsMembers(s, offs[1..], t);
      if Diff(s, t) == offs[0] {
        assert t == Shift(s, offs[0]);
      }
    }
  }

  lemma {:induction false} JumpsDistinct(s: Sq, offs: seq<Offset>)
    requires Distinct(offs)
    ensures Distinct(Jumps(s, offs))
  {
    if |offs| > 0 {
      assert Distinct(offs[1..]);
      JumpsDistinct(s, offs[1..]);
      var n := Shift(s, offs[0]);
      if OnBoard(n) {
        forall t | t in Jumps(s, offs[1..]) ensures t != n {
          JumpsMembers(s, offs[1..], t);
          assert Diff(s, n) == offs[0];
        }
        DistinctConcat([n], Jumps(s, offs[1..]));
      }
    }
  }

  /** When every offset lands on the board, nothing is dropped. */
  lemma {:induction false} JumpsAllOnBoard(s: Sq, offs: seq<Offset>)
    requires forall i :: 0 <= i < |offs| ==> OnBoard(Shift(s, offs[i]))
    ensures |Jumps(s, offs)| == |offs|
  {
    if |offs| > 0 {
      JumpsAllOnBoard(s, offs[1..]);
    }
  }

  /** Lexicographic order on offsets: file offset first, then row offset. */
  predicate LexLess(a: Offset, b: Offset) {
    a.df < b.df || (a.df == b.df && a.dr < b.dr)
  }

  predicate LexSorted(offs: seq<Offset>) {
    forall i, j :: 0 <= i < j < |offs| ==> LexLess(offs[i], offs[j])
  }

  /** A list ordered between neighbours is ordered throughout. */
  lemma {:induction false} SortedByNeighbours(offs: seq<Offset>)
    requires forall i :: 0 <= i < |offs| - 1 ==> LexLess(offs[i], offs[i + 1])
    ensures LexSorted(offs)
    ensures Distinct(offs)
  {
    if |offs| > 1 {
      SortedByNeighbours(offs[1..]);
      forall j | 1 <= j < |offs| ensures LexLess(offs[0], offs[j]) {
        if j > 1 {
          assert LexLess(offs[1..][0], offs[1..][j - 1]);
        }
      }
      forall i, j | 0 <= i < j < |offs| ensures LexLess(offs[i], offs[j]) {
        if i > 0 {
          assert LexLess(offs[1..][i - 1], offs[1..][j - 1]);
        }
      }
    }
  }

  /** Jumps keep the order of the offset list. */
  lemma {:induction false} JumpsOrdered(s: Sq, offs: seq<Offset>)
    requires LexSorted(offs)
    ensures forall i, j :: 0 <= i < j < |Jumps(s, offs)| ==>
      LexLess(Diff(s, Jumps(s, offs)[i]), Diff(s, Jumps(s, offs)[j]))
  {
    if |offs| > 0 {
      JumpsOrdered(s, offs[1..]);
      var rest := Jumps(s, offs[1..]);
      forall k | 0 <= k < |rest| ensures LexLess(offs[0], Diff(s, rest[k])) {
        var m :| 0 <= m < |offs[1..]| && offs[1..][m] == Diff(s, rest[k]);
        assert offs[m + 1] == Diff(s, rest[k]);
      }
    }
  }

  // ---------------------------------------------------------------------
  // Names

  predicate AllOnBoard(cs: seq<Sq>) {
    forall i :: 0 <= i < |cs| ==> OnBoard(cs[i])
  }

  /** The squares spelled as names, `rows[file] + columns[row]`. */
  function Names(cs: seq<Sq>): (r: seq<string>)
    requires AllOnBoard(cs)
    ensures |r| == |cs|
    ensures forall i :: 0 <= i < |cs| ==> r[i] == Name(cs[i])
  {
    if |cs| == 0 then [] else [Name(cs[0])] + Names(cs[1..])
  }

  /** Every spelled name is a square name. */
  lemma NamesSpellSquares(cs: seq<Sq>)
    requires AllOnBoard(cs)
    ensures forall k :: 0 <= k < |cs| ==> IsSquareName(Names(cs)[k])
  {
    forall k | 0 <= k < |cs| ensures IsSquareName(Names(cs)[k]) {
      SquareOfName(cs[k]);
    }
  }

  /** Spelling squares as names loses nothing: membership and the absence
      of duplicates carry over. */
  lemma NamesFacts(cs: seq<Sq>)
    requires AllOnBoard(cs)
    ensures forall t :: OnBoard(t) ==> (Name(t) in Names(cs) <==> t in cs)
    ensures Distinct(cs) ==> Distinct(Names(cs))
  {
    forall t | OnBoard(t) ensures Name(t) in Names(cs) <==> t in cs {
      if Name(t) in Names(cs) {
        var i :| 0 <= i < |cs| && Names(cs)[i] == Name(t);
        NameInjective(cs[i], t);
      }
      if t in cs {
        var i :| 0 <= i < |cs| && cs[i] == t;
        assert Names(cs)[i] == Name(t);
      }
    }
    forall i, j | 0 <= i < j < |cs| && cs[i] != cs[j] ensures Names(cs)[i] != Names(cs)[j] {
      NameInjective(cs[i], cs[j]);
    }
  }
}
