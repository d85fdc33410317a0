# TerminalChess rules engines, modelled in Dafny

TerminalChess holds two chess move engines and a tic-tac-toe engine. All three are
plain list-and-string logic. This project models them as pure Dafny functions over
immutable values and proves what they compute.

- **The modular chess engine.** Its parts are:
  - `highlight_moves.py`: the table of square names, and the highlighting of the
    square the last move started from;
  - `create_board/place_pieces.py`: the starting layout;
  - `determine_piece_color.py` and `get_piece_position.py`: turning a request into a
    colour-prefixed token and the token into a square;
  - the six generators under `pieces/`;
  - the three checks of `restricted_invalid_moves.py`;
  - the orchestration in `move_piece/`.

  A board is a `seq<string>` of 64 tokens (`"wr1"`, `"bq"`, `"bp5"`, or `" "`). Index
  `i*8+j` names file `"abcdefgh"[j]` and rank `8-i`. A move request is the record
  `Tokens.Params`. It holds:
  - the requested piece and square;
  - the player to move and the white player;
  - the square-name table;
  - the saved board.
- **The single-file engine of `terminalchess.py`.** It is a second, separate engine
  (`Terminal`). It keeps its own same-colour check, occupancy-filtering sliding
  generators, pawn and `pop`/`insert` move. It has no line-of-sight check.
- **The tic-tac-toe engine of `tictactoe.py`.** It covers:
  - the position/coordinate maps;
  - row, column and diagonal access;
  - guarded marking;
  - the empty-cell list;
  - completion, the win scan and the score;
  - `minimax`.

Python exceptions become the `Raise` case of `Common.Result`, and the `None`, `True`
and `False` answers of the checks become `Common.PyCheck`. Two helpers model Python
builtins: `Common.IndexOf` is `list.index` and `Common.PyIndex` is a subscript that
accepts negative indices.

The modules follow the source files:
- `common`, `notation`, `geometry`, `tokens`, `layout`, `pieces`, `restricted` and
  `moves` model the modular engine;
- `highlight` models the highlighting;
- `terminal` models the single-file engine;
- `tictactoe` models tic-tac-toe.

Points where the code does something a reader might not expect:
- the `pieces/` generators never look at the board;
- the pawn's two-step rule looks at the rank only, not the colour;
- the same-colour and line-of-sight checks read the board as it was before the swap;
- on a falling diagonal, the line-of-sight check does not inspect the squares between
  origin and target.

## Model

| member | source | states |
|---|---|---|
| Common.IndexOf | get_piece_position.py:21 | `list.index`: a found index holds the value and no earlier index does; nothing is found exactly when the value is absent (the `ValueError` case) |
| Notation.Table | highlight_moves.py:6-11 | `generate_algebraic_notation`; its contract is stated by `Notation.TableShape`, `Notation.TableDistinct` and `Notation.SquareNameInTable` below |
| Notation.TableShape | highlight_moves.py:6-11 | the table has 64 names; entry `i` is file letter `i % 8` followed by rank digit `8 - i / 8`, so entry 0 is `a8` and entry 63 is `h1` |
| Notation.TableDistinct | highlight_moves.py:9-11 | no square name occurs twice in the table |
| Notation.SquareNameInTable | highlight_moves.py:9-11 | a string is in the table exactly when it is a file letter followed by a rank digit, and `list.index` finds it at the index of the square it names |
| Notation.IndexOfName | highlight_moves.py:9-11 | every square's name is in the table, at index `row * 8 + file` |
| Notation.NameInjective | highlight_moves.py:9-11 | two squares have the same name only if they are the same square |
| Notation.CoordsOfName | pieces/king.py:18-22 | parsing a square's name with `rows.index` / `columns.index` gives back the square |
| Notation.SquareOfName | pieces/king.py:18-22 | name then parse is the identity on squares |
| Notation.SquareOf | pieces/rook.py:15-19 | the square parsed from a square name is on the board and is named by that name |
| Notation.RankRowSpelled | highlight_moves.py:9-11 | one pass of the inner loop yields `a<rank>` to `h<rank>` in file order |
| Notation.TableIsLiteral | terminalchess.py:109-174 | the generated table equals the literal `square_name` list of the single-file engine |
| Tokens.DeterminePieceColor | determine_piece_color.py:20-26 | the token is one character longer than the requested piece and ends with it; it starts with `w` exactly when the player to move is the white player, and with `b` otherwise |
| Tokens.ColourDependsOnTurnOnly | determine_piece_color.py:20-24 | requests that agree on the piece and on whether white is to move get the same token; the black player's name never matters |
| Tokens.GetPiecePosition | get_piece_position.py:21 | raises `ValueError` exactly when the token is not on the board; with the real table an answer is a square name |
| Tokens.GetPiecePositionFacts | get_piece_position.py:21 | on a well-formed request the answer names a square whose cell holds the token, and no earlier cell holds it |
| Layout.PlaceChessmen | create_board/place_pieces.py:21-26 | `_place_chessmen`; its contract is stated by `Layout.BackRankSpelled` and `Layout.BackRankPieceInjective` |
| Layout.PlacePawns | create_board/place_pieces.py:29-35 | `_place_pawns`; its contract is stated by `Layout.PawnsSpelled` and `Layout.BlackPawnPassSpelled` |
| Layout.PlaceChessPieces | create_board/place_pieces.py:37-49 | `_place_chess_pieces`; its contract is stated by `Layout.LayoutShape`, `Layout.LayoutBackRanks`, `Layout.LayoutKings`, `Layout.LayoutTokensDistinct` and `Layout.LayoutIsLiteral` |
| Layout.BackRankSpelled | create_board/place_pieces.py:21-26 | each back rank reads `r n b q k b n r` with suffix `1` on the queen side, none on queen and king, and `2` on the king side |
| Layout.BackRankPieceInjective | create_board/place_pieces.py:22-26 | different files of a back rank carry different tokens |
| Layout.PawnsSpelled | create_board/place_pieces.py:29-31 | a pawn pass lays `p1` to `p8` in file order |
| Layout.BlackPawnPassSpelled | create_board/place_pieces.py:29-35 | only black's pawn pass is followed by the 32 blank cells |
| Layout.LayoutShape | create_board/place_pieces.py:37-49 | 64 cells: black back rank at 0-7, black pawns at 8-15, 32 blanks at 16-47, white pawns at 48-55, white back rank at 56-63 |
| Layout.LayoutBackRanks | create_board/place_pieces.py:37-49 | the first and last eight cells are the two back ranks, spelled out |
| Layout.LayoutKings | create_board/place_pieces.py:37-49 | `bk` stands only at index 4 (e8) and `wk` only at index 60 (e1) |
| Layout.LayoutTokensDistinct | create_board/place_pieces.py:37-49 | no token other than the blank occurs twice |
| Layout.LayoutIsLiteral | terminalchess.py:43-108 | the generated layout equals the literal `chess_pieces` list of the single-file engine |
| Geometry.Ray | pieces/rook.py:24-32 | a ray has one square per step to the edge; its `k`-th square is on the board, ahead of the origin in the ray's direction, and `k + 1` king steps away, so the origin is never included |
| Geometry.RayMembers | pieces/bishop.py:24-32 | a square is on the ray exactly when it is on the board and ahead of the origin in that direction |
| Geometry.RayDistinct | pieces/bishop.py:24-32 | a ray never repeats a square |
| Geometry.Slide | pieces/queen.py:33-41 | the rays of a direction list, one after the other, stay on the board |
| Geometry.SlideMembers | pieces/queen.py:33-41 | a square is on the slide exactly when it is on the board and ahead of the origin along one of the directions |
| Geometry.SlideDistinct | pieces/queen.py:33-41 | with distinct directions, no square is produced twice |
| Geometry.Jumps | pieces/knight.py:32-37 | every kept square is on the board and sits at one of the listed offsets from the origin |
| Geometry.JumpsMembers | pieces/knight.py:32-37 | a square is kept exactly when it is on the board at one of the offsets |
| Geometry.JumpsOrdered | pieces/knight.py:32-37 | kept squares come out in the order of the offset list |
| Geometry.NamesFacts | pieces/rook.py:30 | spelling squares as names keeps membership, and keeps the absence of repeats |
| Pieces.KingMoves | pieces/king.py:15-38 | the king's `get_valid_move`; its contract is stated by `Pieces.KingTargetsFacts` and `Moves.KingMovesNamed` |
| Pieces.QueenMoves | pieces/queen.py:12-43 | the queen's `get_valid_move`; its contract is stated by `Pieces.QueenTargetsFacts`, `Pieces.QueenMembers` and `Moves.QueenMovesNamed` |
| Pieces.RookMoves | pieces/rook.py:12-34 | the rook's `get_valid_move`; its contract is stated by `Pieces.RookOrder`, `Pieces.RookTargetsFacts` and `Moves.RookMovesNamed` |
| Pieces.BishopMoves | pieces/bishop.py:12-34 | the bishop's `get_valid_move`; its contract is stated by `Pieces.BishopTargetsFacts`, `Pieces.BishopLength` and `Moves.BishopMovesNamed` |
| Pieces.KnightMoves | pieces/knight.py:12-39 | the knight's `get_valid_move`; its contract is stated by `Pieces.KnightTargetsFacts` and `Moves.KnightMovesNamed` |
| Pieces.PawnMoves | pieces/pawn.py:15-37 | the pawn's `get_valid_move` on a square name; its contract is stated by `Pieces.PawnMovesFacts`, `Pieces.PawnHasList` and `Pieces.PawnFile` |
| Pieces.PawnFrom | pieces/pawn.py:17-37 | the pawn's list from a square; its contract is stated by `Pieces.WhitePawnFacts` and `Pieces.BlackPawnFacts` |
| Pieces.KingOffsetsSpelled | pieces/king.py:24-35 | the king's offsets are `itertools.product` of `[-1, 0, 1]` with itself, with `(0, 0)` dropped, file offset slowest |
| Pieces.KingOffsetsFacts | pieces/king.py:24-35 | the offsets are exactly the eight unit steps, strictly increasing, with no repeats |
| Pieces.KingTargetsFacts | pieces/king.py:28-36 | the king reaches exactly the on-board squares one king step away, each once, in offset order; between 3 and 8 of them, and 8 away from the edge |
| Pieces.KingAtLeastThree | pieces/king.py:28-36 | even in a corner the king keeps three moves |
| Pieces.KnightOffsetsFacts | pieces/knight.py:21-30 | the knight offsets are exactly the eight `{1, 2}` leaps, strictly increasing |
| Pieces.KnightTargetsFacts | pieces/knight.py:32-37 | the knight reaches exactly the on-board squares a leap away, each once, in offset order; at most 8, exactly 8 from files c-f and ranks 3-6, exactly 2 from a corner |
| Pieces.KnightCorner | pieces/knight.py:32-37 | from each corner two leaps remain |
| Pieces.RookOrder | pieces/rook.py:21-32 | 14 squares: toward rank 1, then rank 8, then file h, then file a, each ray nearest first |
| Pieces.RookTargetsFacts | pieces/rook.py:21-32 | the rook reaches exactly the other squares of its file and rank, 14 of them, without repeats, in ray order |
| Pieces.BishopTargetsFacts | pieces/bishop.py:21-32 | the bishop reaches exactly the other squares of its two diagonals, without repeats; 7 to 13 of them, all of the origin's square colour |
| Pieces.BishopLength | pieces/bishop.py:24-32 | the bishop has 7 moves in a corner and at most 13 in the centre |
| Pieces.BishopColour | pieces/bishop.py:21 | every bishop target has the parity of `file + rank` of the origin |
| Pieces.RookBishopDisjoint | pieces/queen.py:21-30 | no square is both a rook move and a bishop move |
| Pieces.QueenTargetsFacts | pieces/queen.py:21-41 | the queen's list is the rook's list followed by the bishop's; it covers exactly file, rank and diagonals, without repeats, 21 to 27 squares |
| Pieces.QueenMembers | pieces/queen.py:21-41 | a square is a queen move exactly when it shares the origin's file, rank or a diagonal |
| Pieces.WhitePawnFacts | pieces/pawn.py:17-37 | white steps toward rank 8, with two steps from rank 2 and also from rank 7; from rank 7 and rank 8 a negative subscript wraps around to rank 1 |
| Pieces.BlackPawnFacts | pieces/pawn.py:17-37 | black steps toward rank 1, with two steps from rank 7; from rank 2 and rank 1 the subscript raises |
| Pieces.PawnMovesFacts | pieces/pawn.py:15-37 | the full pawn table by colour and rank, including the raising and wrapping cases |
| Pieces.PawnHasList | pieces/pawn.py:28-35 | the pawn has a list exactly unless it is black on rank 2 or rank 1 |
| Pieces.PawnFile | pieces/pawn.py:29-35 | every pawn square lies on the pawn's own file, so there is no diagonal capture |
| Restricted.MoverColour | restricted_invalid_moves.py:21-22 | the mover's colour is the token's first letter: `w` exactly when white is to move |
| Restricted.SameColorPiece | restricted_invalid_moves.py:24-45 | never `False`; `None` when index or piece is missing; `True` only for a piece of the mover's colour; `IndexError` is raised for an index outside the table and for an empty displaced piece (`replaced_piece[0]`), in the order the source evaluates them |
| Restricted.SameColorAtTarget | restricted_invalid_moves.py:37-45 | at the target index of the requested square, `True` exactly when the displaced piece has the mover's colour; never for the blank |
| Restricted.OccupiedSquare | restricted_invalid_moves.py:47-61 | never `True`; raises `ValueError` exactly for a name outside the table |
| Restricted.OccupiedSquareFacts | restricted_invalid_moves.py:55-61 | on a real square, `False` exactly when its cell holds a piece of the mover's colour, `None` otherwise |
| Restricted.Range | restricted_invalid_moves.py:77-82 | `range(lo, hi)`: `hi - lo` consecutive values from `lo`, or none |
| Restricted.FileLabel | restricted_invalid_moves.py:67-70 | the file index of the square named |
| Restricted.RankLabel | restricted_invalid_moves.py:72-75 | the index in `"12345678"` is seven minus the square's row |
| Restricted.AscNameIsName | restricted_invalid_moves.py:86-97 | a file label plus an ascending rank label names the expected square, found in the table at that square's index |
| Restricted.Path | restricted_invalid_moves.py:77-99 | every listed pair is a pair of label indices |
| Restricted.PathAlongFile | restricted_invalid_moves.py:85-88 | on one file the path lists the ranks strictly between, ascending |
| Restricted.PathAlongRank | restricted_invalid_moves.py:89-92 | on one rank the path lists the files strictly between, ascending |
| Restricted.PathDiagonal | restricted_invalid_moves.py:93-97 | on a diagonal the path pairs the `k`-th file above the smaller file with the `k`-th rank above the smaller rank |
| Restricted.PathMisaligned | restricted_invalid_moves.py:98-99 | neither file, rank nor diagonal: no path |
| Restricted.AnyOccupiedFacts | restricted_invalid_moves.py:101-108 | the closing loop never raises on the real table, and answers `True` exactly when one of the listed cells is not blank |
| Restricted.JumpingOverPieces | restricted_invalid_moves.py:63-108 | never `False` |
| Restricted.SightCheck | restricted_invalid_moves.py:101-108 | the closing loop over a path, or `True` without one; never `False`, with `Restricted.SightCheckFacts` giving the full decision |
| Restricted.SightCheckFacts | restricted_invalid_moves.py:101-108 | along a path the check answers `True` exactly when some listed square is occupied |
| Restricted.JumpingKnight | restricted_invalid_moves.py:64-65 | a knight is never blocked |
| Restricted.JumpingMisaligned | restricted_invalid_moves.py:93-99 | any other piece is refused when origin and target share no file, rank or diagonal |
| Restricted.JumpingAlongFile | restricted_invalid_moves.py:85-88 | on a file, blocked exactly when a square strictly between holds something; neighbours are never blocked |
| Restricted.JumpingAlongRank | restricted_invalid_moves.py:89-92 | on a rank, blocked exactly when a square strictly between holds something |
| Restricted.JumpingRisingDiagonal | restricted_invalid_moves.py:93-97 | on an a1-h8 diagonal, blocked exactly when a square strictly between holds something |
| Restricted.JumpingFallingDiagonal | restricted_invalid_moves.py:93-97 | on an a8-h1 diagonal, the check inspects the other diagonal of the square region the two squares span |
| Restricted.JumpingAligned | restricted_invalid_moves.py:63-108 | for a piece other than a knight: `True` when misaligned, otherwise `True` exactly when the inspected squares are blocked; never raises on a well-formed request |
| Restricted.FallingDiagonalExample | restricted_invalid_moves.py:93-97 | a4 to d1 passes b3 and c2, but the check inspects b2 and c3 |
| Moves.PieceGenerated | move_piece/validate_move.py:56-77 | a letter other than `k q r b n` yields the empty list |
| Moves.Generated | move_piece/validate_move.py:56-77 | there is no list only for a black pawn on rank 2 or 1; an unknown letter yields `[]` |
| Moves.GetPieceMoves | move_piece/validate_move.py:56-77 | raises only `IndexError`: for an empty piece name, or for the black-pawn edge case |
| Moves.KingMovesNamed | pieces/king.py:15-38 | a name is a king move exactly when the king's rule of movement reaches that square |
| Moves.QueenMovesNamed | pieces/queen.py:12-43 | a name is a queen move exactly when the queen's rule of movement reaches that square |
| Moves.RookMovesNamed | pieces/rook.py:12-34 | a name is a rook move exactly when the rook's rule of movement reaches that square |
| Moves.BishopMovesNamed | pieces/bishop.py:12-34 | a name is a bishop move exactly when the bishop's rule of movement reaches that square |
| Moves.KnightMovesNamed | pieces/knight.py:12-39 | a name is a knight move exactly when the knight's rule of movement reaches that square |
| Moves.GetPieceMovesReaches | move_piece/validate_move.py:56-77 | for every piece but the pawn the dispatch never raises, and it offers a square exactly when that piece's rule reaches it |
| Moves.GetPieceMovesPawn | move_piece/validate_move.py:70-73 | for a pawn the dispatch returns the pawn list for the mover's colour, and raises exactly when there is none |
| Moves.ValidateMove | move_piece/validate_move.py:79-112 | every answer reports the origin, and an accepted move answers the board it was given |
| Moves.ValidateMoveErrors | move_piece/validate_move.py:94-112 | on a request, `validate_move` lets only `IndexError` through |
| Moves.SwapPieces | move_piece/move_piece.py:18-23 | the displaced piece is returned and moves to the origin; the token lands on the target; no other cell changes; the length is kept |
| Moves.SwapIsTransposition | move_piece/move_piece.py:18-23 | when the token stands at the origin, the board after the swap is a permutation of the board before it, so a capture keeps the captured token |
| Moves.SwapUndone | move_piece/move_piece.py:18-23 | swapping back with the displaced piece restores the board |
| Moves.FromFacts | move_piece/move_piece.py:34-36 | the reported origin and the origin index name the same square, the first cell holding the token |
| Moves.MovePiece | move_piece/move_piece.py:25-46 | `move_piece`; its contract is stated by `Moves.MovePieceUnfold`, `Moves.MovePieceErrors`, `Moves.MovePieceAccepted`, `Moves.MovePieceDecision` and `Moves.MovePiecePawn` |
| Moves.MovePieceUnfold | move_piece/move_piece.py:32-46 | past the two lookups, `move_piece` is `validate_move` on the target index, the displaced piece, the origin and the swapped copy |
| Moves.MovePieceErrors | move_piece/move_piece.py:25-46 | raises `ValueError` exactly when the token is not on the board or the requested square is not in the table; the only other exception is `IndexError` |
| Moves.MovePieceAccepted | move_piece/move_piece.py:32-46 | an answer reports the origin's name; an accepted move returns the swapped copy, in which origin and target differ |
| Moves.MovePieceDecision | move_piece/validate_move.py:96-112 | for every piece but the pawn, a request never raises, and a move is accepted exactly when it is `Legal`: no friendly piece on the target, the piece's rule reaches it, and, unless it is a knight, nothing stands in the inspected squares |
| Moves.MovePiecePawn | move_piece/validate_move.py:96-112 | a pawn passes the same two checks first; then it raises exactly in the black edge case, and is accepted exactly when the target is on its list |
| Moves.PawnStaysOnFile | pieces/pawn.py:28-35 | a pawn move off the pawn's file is always refused |
| Moves.PawnCapturesAhead | move_piece/move_piece.py:18-46 | a white pawn takes an enemy piece straight ahead of it; the captured token moves to the origin |
| Highlight.HighlightCell | highlight_moves.py:21-45 | with no previous square, no cell is coloured; the move-square colour is never produced |
| Highlight.HighlightOnBoard | highlight_moves.py:35-45 | on the board: the target's cell raises `AttributeError`, the origin's cell (if it is not the target) gets `#F5F67F`, and every other cell is plain |
| Highlight.OneCellHighlighted | highlight_moves.py:40-45 | after a move between two different squares, exactly the origin's cell is coloured |
| Highlight.NegativeRowWraps | highlight_moves.py:36 | row -1 is read as the bottom rank through a negative subscript |
| Terminal.PieceColour | terminalchess.py:348 | `w` exactly when the token starts with `w`, else `b` |
| Terminal.SameColour | terminalchess.py:340-354 | never `True`; raises exactly for an empty displaced piece; `False` exactly when the displaced piece has the mover's colour and the requested square is the target |
| Terminal.OccupiedCheck | terminalchess.py:356-369 | never `True`; raises `ValueError` exactly for a name outside the table |
| Terminal.CheckEach | terminalchess.py:650-664 | the filter keeps a subset of the generated names |
| Terminal.CheckEachFacts | terminalchess.py:650-664 | on a sound board it never raises, and it keeps exactly the generated names whose cell does not hold a piece of the mover's colour |
| Terminal.CheckedMember | terminalchess.py:606-621 | a filtered generated list holds a name exactly when its square was generated and does not hold a piece of the mover's colour; squares beyond any piece stay in |
| Terminal.TerminalPawn | terminalchess.py:770-798 | the single-file pawn generator; its contract is stated by `Terminal.TerminalPawnBlocked`, `Terminal.TerminalPawnFree`, `Terminal.TerminalPawnNoStep` and `Terminal.TerminalPawnNoSecondStep` |
| Terminal.TerminalPieceMoves | terminalchess.py:535-752 | the single-file king, queen, rook, bishop and knight generators; their contract is stated by `Terminal.TerminalMovesReach` and `Terminal.CheckedMember` |
| Terminal.TerminalMoves | terminalchess.py:458-492 | the generator dispatch of the single-file `validate_move`; its contract is stated by `Terminal.TerminalMovesReach`, `Terminal.TerminalGeneratorRaises` and `Terminal.TerminalPawnDecision` |
| Terminal.StepNameAhead | terminalchess.py:772-786 | the pawn's step name exists unless a black pawn stands on rank 1, and it then names the square straight ahead |
| Terminal.TerminalPawnBlocked | terminalchess.py:783-798 | a pawn whose step square holds a friendly piece is offered nothing |
| Terminal.TerminalPawnFree | terminalchess.py:783-798 | otherwise it is offered the modular pawn's list; the two-step square is never checked |
| Terminal.TerminalPawnNoStep | terminalchess.py:783-788 | a black pawn on rank 1 raises `IndexError` |
| Terminal.TerminalPawnNoSecondStep | terminalchess.py:789-794 | a black pawn on rank 2 with a free step square raises `IndexError` |
| Terminal.TerminalValidate | terminalchess.py:422-500 | every answer reports the origin, and an accepted move answers the moved board |
| Terminal.ChecksOfFacts | terminalchess.py:437-444 | the checks see the real table and the original board, the displaced piece, and the target's name as `position` |
| Terminal.TerminalRefusesFriendly | terminalchess.py:448-456 | a friendly target is refused before any generator runs |
| Terminal.TerminalGeneratorRaises | terminalchess.py:458-492 | past a non-friendly target, an exception of the generator is the answer |
| Terminal.TerminalGeneratorDecides | terminalchess.py:494-500 | past a non-friendly target, membership in the generated list decides |
| Terminal.TerminalMovesReach | terminalchess.py:458-492 | every generator but the pawn's offers the requested square exactly when the piece's rule reaches it and it is not friendly |
| Terminal.TerminalSwap | terminalchess.py:509-520 | the `pop`/`insert` swap; its contract is stated by `Terminal.PopInsert` and `Terminal.TerminalSwapIsSwap` |
| Terminal.TerminalMovePiece | terminalchess.py:502-528 | the single-file `move_piece`; its contract is stated by `Terminal.TerminalDecision`, `Terminal.TerminalPawnDecision`, `Terminal.TerminalBlackPawnEdge` and `Terminal.ModularSlidersStricter` |
| Terminal.PopInsert | terminalchess.py:517-520 | popping a cell and inserting at the same index overwrites that cell |
| Terminal.TerminalSwapIsSwap | terminalchess.py:509-520 | the two `pop`/`insert` pairs produce the same board and displaced piece as the modular engine's swap |
| Terminal.TerminalDecision | terminalchess.py:502-528 | for every piece but the pawn, a request never raises, and a move is accepted exactly when the target is not friendly and the piece's rule reaches it, whatever stands in between |
| Terminal.TerminalPawnDecision | terminalchess.py:770-798 | where the modular pawn has a list, a pawn move is accepted exactly when the target is not friendly, the step square is not friendly and the target is on the list |
| Terminal.TerminalBlackPawnEdge | terminalchess.py:783-798 | a black pawn on rank 1 raises; on rank 2 it raises unless its step square is friendly, and then it is refused |
| Terminal.NeighboursNeverBlocked | restricted_invalid_moves.py:77-97 | between neighbouring squares the line-of-sight check finds nothing |
| Terminal.EnginesAgreeOnKingAndKnight | terminalchess.py:547-570 | for king and knight moves both engines give the same answer |
| Terminal.ModularSlidersStricter | terminalchess.py:638-666 | every rook, bishop or queen move the modular engine accepts is accepted by the single-file engine too, with the same answer |
| Terminal.TerminalRookPassesThrough | terminalchess.py:650-664 | a rook move along a file with a piece in between is accepted by the single-file engine and refused by the modular one |
| TicTacToe.PositionToCoordinates | tictactoe.py:107-121 | position `pos` maps to row `(pos - 1) / n`, column `(pos - 1) % n` |
| TicTacToe.PositionLookup | tictactoe.py:295 | the lookup succeeds exactly for positions 1 to `n * n`, and fails with `KeyError` otherwise |
| TicTacToe.CoordinatesToPosition | tictactoe.py:123-125 | the inverted dictionary has exactly the cells of the grid as keys; other keys raise `KeyError` |
| TicTacToe.PositionRoundTrip | tictactoe.py:107-125 | every position maps to a grid cell that maps back to it |
| TicTacToe.CoordinatesRoundTrip | tictactoe.py:107-125 | every grid cell has the position `row * n + col + 1`, which maps back to it |
| TicTacToe.CreateBoard | tictactoe.py:179-187 | `n` rows of `n` cells, every one empty |
| TicTacToe.PutFrame | tictactoe.py:288 | writing a cell changes that cell only and keeps the board square |
| TicTacToe.PutRestores | tictactoe.py:471-479 | writing back the old value restores the board, as the undo step of `minimax` needs |
| TicTacToe.GetBoardRow | tictactoe.py:189-200 | raises `GameplayError` exactly outside rows 1 to `n`; a row has `n` cells |
| TicTacToe.GetBoardColumn | tictactoe.py:202-214 | raises `GameplayError` exactly outside columns 1 to `n`; a column has `n` cells |
| TicTacToe.GetBoardDiagonal | tictactoe.py:216-234 | raises `GameplayError` exactly for numbers other than 1 and -1; a diagonal has `n` cells |
| TicTacToe.LinesCross | tictactoe.py:189-234 | column, diagonal and anti-diagonal agree with the rows where they cross them |
| TicTacToe.GetEmptyCells | tictactoe.py:236-251 | raises `GameplayError` exactly when no cell is empty |
| TicTacToe.EmptyCellsMembers | tictactoe.py:240-244 | a coordinate is listed exactly when it is on the board and its cell is empty |
| TicTacToe.EmptyCellsSorted | tictactoe.py:240-244 | the list is strictly increasing in row-major order, so it has no repeats |
| TicTacToe.PutShrinks | tictactoe.py:469-475 | marking an empty cell shortens the empty list by exactly one |
| TicTacToe.GetCornerCells | tictactoe.py:253-258 | four corners, all on the grid |
| TicTacToe.CornerPositions | tictactoe.py:253-258 | the corners are positions 1, `n`, `n*n - n + 1` and `n*n` |
| TicTacToe.CheckCompletion | tictactoe.py:513-522 | `check_completion`; its contract is stated by `TicTacToe.CompletionMeansFull` |
| TicTacToe.CompletionMeansFull | tictactoe.py:513-522 | on a square board, the game is complete exactly when no cell is empty |
| TicTacToe.SetMarkAsWritten | tictactoe.py:260-289 | as written: raises `GameplayError` exactly for an empty mark, a cell off the grid or an occupied cell |
| TicTacToe.SetMarkAsWrittenEffect | tictactoe.py:287-289 | as written: every accepted move, a repeated mark included, changes that one cell and no other, keeps the board square, and appends one record whose position maps back to the cell and whose marker is the mark's name |
| TicTacToe.SameMarkTwice | tictactoe.py:281-286 | as written, the same mark is accepted twice in a row |
| TicTacToe.SetMarkByCoordinates | tictactoe.py:260-289 | with the guard comparing the recorded name, every refusal is a `GameplayError` |
| TicTacToe.GuardOnlyAddsRefusal | tictactoe.py:281-286 | the corrected guard changes nothing unless the last recorded mark is this mark, and then it refuses |
| TicTacToe.SetMarkRefusals | tictactoe.py:266-286 | corrected: with the guard comparing `mark.name`, a move is refused exactly for an empty mark, a cell off the grid or taken, or the mark that moved last |
| TicTacToe.SetMarkEffect | tictactoe.py:288-289 | corrected: a move the corrected function accepts changes that one cell and no other, and appends one record whose position maps back to the cell and whose marker is the mark's name |
| TicTacToe.SetMarkAlternates | tictactoe.py:281-289 | with the corrected guard the record of moves stays alternating, and the mark that just moved is refused everywhere |
| TicTacToe.SetMarkByPosition | tictactoe.py:291-295 | as written, over `set_mark_by_coordinates` as it stands: raises `KeyError` exactly for positions outside 1 to `n * n` |
| TicTacToe.SetMarkByPositionEffect | tictactoe.py:291-295 | as written: refused exactly for a position outside 1 to `n * n` (`KeyError`), an empty mark or a taken cell (`GameplayError`); an accepted move, whatever mark moved last, marks the cell at row `(pos - 1) / n`, column `(pos - 1) % n` and no other, and records `pos` itself |
| TicTacToe.GuardedSetMarkByPosition | tictactoe.py:291-295 | corrected wrapper over the corrected guard: raises `KeyError` exactly outside 1 to `n * n`; an accepted move records `pos` under the mark's name |
| TicTacToe.GuardedPositionAgrees | tictactoe.py:281-295 | corrected: the corrected wrapper answers as the source's wrapper unless the mark moved last, then it refuses; it keeps the record of moves alternating |
| TicTacToe.CompletedMeans | tictactoe.py:531 | `len(set(line)) == 1` with no empty cell means a non-empty line of one non-empty mark |
| TicTacToe.FirstLine | tictactoe.py:528-575 | the scan order of `check_win`; its contract is stated by `TicTacToe.FirstLineFacts` |
| TicTacToe.CheckWinAsWritten | tictactoe.py:524-575 | as written, with `range(0, 3)` for the main diagonal; its contract is stated by `TicTacToe.CheckWinAgrees` and `TicTacToe.MainDiagonalCoordinatesShort` |
| TicTacToe.CheckWin | tictactoe.py:524-575 | corrected, with `range(0, n)` for the main diagonal; its contract is stated by `TicTacToe.CheckWinVictory` and `TicTacToe.CheckWinCoordinates` |
| TicTacToe.FirstLineFacts | tictactoe.py:528-575 | the scan finds a completed line exactly when one exists, and finds the first in the order rows, columns, anti-diagonal, main diagonal |
| TicTacToe.CheckWinVictory | tictactoe.py:524-575 | a victory is reported exactly when some row, column or diagonal holds one mark throughout |
| TicTacToe.CheckWinCoordinates | tictactoe.py:528-575 | a reported victory names a winner and `n` coordinates; each is on the grid and holds the winner's mark |
| TicTacToe.CheckWinAgrees | tictactoe.py:559-573 | as written and corrected agree on victory and winner, and on the coordinates unless the main diagonal wins on a grid other than 3 by 3 |
| TicTacToe.MainDiagonalCoordinatesShort | tictactoe.py:563 | on a 4 by 4 main-diagonal win, the reported coordinates as written stop at `(2, 2)` and miss the winning cell `(3, 3)` |
| TicTacToe.GetScore | tictactoe.py:429-452 | the score is -1, 0 or 1 |
| TicTacToe.ScoreMatchesWin | tictactoe.py:429-452 | the score is non-zero exactly on a victory; it is 1 for a mark exactly when that mark won; the two marks' scores are opposite |
| TicTacToe.NewGame | tictactoe.py:179-187 | a new game has no victory and every cell free |
| TicTacToe.ChildValued | tictactoe.py:469-475 | every move's value is a game value |
| TicTacToe.ImprovesOrder | tictactoe.py:480-482 | the update test is a strict order for either mark, total on game values, and every game value beats the starting infinity |
| TicTacToe.Minimax | tictactoe.py:454-484 | `minimax`; its contract is stated by `TicTacToe.MinimaxValued`, `TicTacToe.MinimaxChoice` and `TicTacToe.MinimaxPasses` |
| TicTacToe.Scan | tictactoe.py:469-484 | the loop over the empty cells inside `minimax`; its contract is stated by `TicTacToe.ScanPicksFirstBest` |
| TicTacToe.MinimaxValued | tictactoe.py:454-484 | every value `minimax` returns is -1, 0 or 1 |
| TicTacToe.ScanPicksFirstBest | tictactoe.py:469-484 | the loop's result is not improved on by any later move, and is the first move that is strictly better than all before it |
| TicTacToe.MinimaxChoice | tictactoe.py:454-484 | off a finished board, `minimax` answers an empty cell whose value no other empty cell improves on; on ties it keeps the earliest in row-major order |
| TicTacToe.MinimaxPasses | tictactoe.py:457-458 | `minimax` answers no move exactly on a finished board, and its value is then the board's score |

## Left out

- Console output, colours, glyphs and rendering are left out (`create_board/create_board.py`, the board methods of `Game` in `terminalchess.py`, `display_board`, `test.py`): none of them decides a move.
- The interactive loops, prompts and input splitting are left out (`main` of each program, `play`, `position_input`): they only feed requests in and print answers.
- The logging, directories and the log-purging thread of `tictactoe.py` are left out, and so are recordings and their playback: they are file I/O, clocks and threads.
- `_fill_computer_cell_easy`, `_fill_computer_cell_medium`, `_fill_computer_cell_hard`, `fill_computer_cell` and `fill_player_cell` are left out. They pick cells with `random.choice`, or pass a fixed mark to `set_mark_by_position` / `set_mark_by_coordinates`, which are modelled.
- `chess.py` is left out: its validators are stubs, and its move edits the list it is iterating over.
- `display_valid_moves.py` is left out: it computes moves and discards them.
- `c.cpp` is left out: it is an unrelated timing demo.
- `Game.highlight_move` of `terminalchess.py` is left out: it is rendering only.
- Highlight.HighlightCell: where the source reads the never-assigned `updated_game`, the model raises `AttributeError`, since Python would.
- TicTacToe.Minimax: it requires `current != Empty`. The source never calls it otherwise: tictactoe.py:488 starts with `COMPUTER`, and the recursion at tictactoe.py:474 alternates the two marks. The same goes for `maximizing != Empty` in the lemmas about it.
- TicTacToe.Minimax: the `depth` parameter is dropped, because it never influences the result.
- TicTacToe.Minimax: the `float("-inf")` / `float("inf")` starting scores are the `NegInf` / `PosInf` cases of `Score`, not floating-point values.
- TicTacToe.PositionToCoordinates: the comparison of `pos // grid_size` with the float `pos / grid_size` (tictactoe.py:110-113) is treated as exact. The positions are below 26, so no rounding arises.
- The class of the `params` object is not part of this model. It is modelled as a record of the six values the code reads from it.
- Board cells are assumed non-empty strings, and the table is assumed to be the real square-name table (`Tokens.WellFormed`, `Moves.Request`, `Terminal.Sound`). Every caller in the repository builds them that way. Outside that, the generic functions still return the Python exceptions.

## Findings

| source | as written | input that shows it | evidently intended | confidence | as-written member | corrected member |
|---|---|---|---|---|---|---|
| tictactoe.py:563 | a main-diagonal win reports the coordinates `range(0, 3)` whatever the grid size, and grid sizes 4 and 5 can be chosen (tictactoe.py:878-879) | a 4 by 4 board with `COMPUTER` on the main diagonal and every other cell empty: the reported coordinates are `(0,0), (1,1), (2,2)`, without `(3,3)` | coordinates `(j, j)` for `j` in `range(0, grid_size)`, like the other three lines | high (not executed) | TicTacToe.CheckWinAsWritten, TicTacToe.MainDiagonalCoordinatesShort | TicTacToe.CheckWin, TicTacToe.CheckWinCoordinates |
| tictactoe.py:283 | the guard against two consecutive moves with one mark compares the recorded `mark.name` (a `str`) with the `Cell` member itself; `Cell` is a plain `Enum` (tictactoe.py:33), so the comparison is always false | on an empty 3 by 3 game, `COMPUTER` at `(0, 0)` and then `COMPUTER` at `(0, 1)`: both moves are accepted | compare the recorded name with `mark.name`, so that the mark that moved last is refused | high (not executed) | TicTacToe.SetMarkAsWritten, TicTacToe.SameMarkTwice, TicTacToe.SetMarkAsWrittenEffect, TicTacToe.SetMarkByPosition | TicTacToe.SetMarkByCoordinates, TicTacToe.GuardOnlyAddsRefusal, TicTacToe.SetMarkRefusals, TicTacToe.SetMarkEffect, TicTacToe.SetMarkAlternates, TicTacToe.GuardedSetMarkByPosition, TicTacToe.GuardedPositionAgrees |
