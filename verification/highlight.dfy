/** The square colouring of `highlight_moves.py`: the board renderer asks,
    for each cell `(i, j)` (rank row `i` from the top, file `j`), whether
    the cell is the square the last move came from. */
module Highlight {
  import opened Common
  import opened Notation

  /** Background of the square the last move started from. */
  const PreviousColour: string := "#F5F67F"

  /** Background meant for the square the last move went to. */
  const MoveColour: string := "#BBCB44"

  /** `HighlightMove(move, previous_square).highlight_move(i, j)`: no colour
      before any move has been made; the cell's name is looked up with a
      Python subscript (`IndexError` off the table); a cell named like the
      last move reads the attribute `updated_game`, which no code ever
      assigns (`AttributeError`); the cell the last move came from gets
      `PreviousColour`, every other cell no colour. */
  function HighlightCell(move: string, previous: Option<string>, i: int, j: int): (r: Result<Option<string>>)
    ensures previous.None? ==> r == Ok(None)
    ensures r != Ok(Some(MoveColour))
  {
    if previous.None? then Ok(None)
    else
      match PyIndex(Table(), i * 8 + j)
      case None => Raise(IndexError)
      case Some(name) =>
        if name == move then Raise(AttributeError)
        else if name == previous.value then Ok(Some(PreviousColour))
        else Ok(None)
  }

  /** On the board, after a move: the cell of the move's target raises,
      the cell of its origin (when different) gets `PreviousColour`, and
      every other cell is left plain. */
  lemma HighlightOnBoard(move: string, previous: string, s: Sq)
    requires OnBoard(s)
    ensures var r := HighlightCell(move, Some(previous), s.row, s.file);
      && (r == Raise(AttributeError) <==> Name(s) == move)
      && (r == Ok(Some(PreviousColour)) <==> Name(s) == previous && Name(s) != move)
      && (r == Ok(None) <==> Name(s) != previous && Name(s) != move)
  {
    TableShape();
    assert SqAt(s.row * 8 + s.file) == s;
  }

  /** After a move between two different squares exactly one cell of the
      board is coloured: the origin's. */
  lemma OneCellHighlighted(move: string, previous: string, s: Sq)
    requires IsSquareName(previous) && previous != move && OnBoard(s)
    ensures HighlightCell(move, Some(previous), s.row, s.file) == Ok(Some(PreviousColour)) <==>
      s == SquareOf(previous)
  {
    HighlightOnBoard(move, previous, s);
    NameInjective(s, SquareOf(previous));
  }

  /** Python's negative subscripts: row -1 reads the last rank of the table
      instead of raising, so cell `(-1, j)` is looked up as rank 1. */
  lemma NegativeRowWraps(move: string, previous: string, j: int)
    requires 0 <= j < 8
    ensures HighlightCell(move, Some(previous), -1, j) == HighlightCell(move, Some(previous), 7, j)
  {
  }
}
