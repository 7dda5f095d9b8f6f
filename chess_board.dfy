/**
  The board of the main engine: `movePiece`, `unmakeMove`, `getKing`, `isCheck`,
  `isCheckmate`, `isStalemate` and `setupPieces`.  The functions here describe each
  operation on a `Position` value; the class `Board` of `BoardObject` holds the same state
  in fields and its methods are proved to follow the functions.  A JavaScript `TypeError`
  (reading a field of `null` or `undefined`) is the outcome `Crashed`.
 */
module ChessBoard {
  import opened ChessTypes
  import opened MoveTables
  import opened PieceRules

  /** The outcome of an operation that may throw. */
  datatype Fallible<T> = Ok(value: T) | Crashed

  /** The record `movePiece` returns and `unmakeMove` consumes: the move, the piece it
      captured on the end tile, the mover's old `firstMove`, whether some tile was flagged,
      the pawn taken en passant and the record of the castling rook's own move. */
  datatype Undo = Undo(move: MoveReq, captured: Option<Piece>, wasFirstMove: bool, lastEnPassant: bool,
                       epCapture: Option<Piece>, rookUndo: Option<Undo>)

  /** The position after `movePiece` and the record it returned. */
  datatype Made = Made(pos: Position, undo: Undo)

  // ---------------------------------------------------------------- movePiece

  /** The move is a king moving two columns, which `movePiece` treats as castling. */
  predicate IsCastle(cells: Cells, m: MoveReq) {
    && InBounds(m.startRow, m.startCol)
    && PieceAt(cells, m.startRow, m.startCol).Some?
    && PieceAt(cells, m.startRow, m.startCol).value.kind == King
    && Abs(m.endCol - m.startCol) == 2
  }

  /** How deep the castling recursion of `movePiece` can go: a kingside castle moves the
      corner piece two columns left, which could itself be read as a queenside castle, which
      moves its corner piece three columns right. */
  function CastleRank(cells: Cells, m: MoveReq): nat {
    if IsCastle(cells, m) then (if m.endCol > m.startCol then 2 else 1) else 0
  }

  /** The corner column castling takes the partner piece from, and the column it puts it on. */
  function CornerCol(m: MoveReq): int {
    if m.endCol - m.startCol > 0 then 7 else 0
  }

  function RookCol(m: MoveReq): int {
    if m.endCol - m.startCol > 0 then 5 else 3
  }

  /** The end of `movePiece`: the piece lands on the end tile, leaves the start tile, loses
      `firstMove`; all flags are cleared and a pawn's two-row advance flags the square it
      passed. */
  function Land(cells: Cells, m: MoveReq, piece: Piece, undo: Undo): Made
    requires InBounds(m.startRow, m.startCol) && InBounds(m.endRow, m.endCol)
  {
    var moved := piece.(row := m.endRow, col := m.endCol, firstMove := false);
    var placed := SetPiece(SetPiece(cells, m.endRow, m.endCol, Some(moved)), m.startRow, m.startCol, None);
    var cleared := ClearFlags(placed);
    var flagged := if piece.kind == Pawn && Abs(m.startRow - m.endRow) == 2
                   then SetFlag(cleared, (m.startRow + m.endRow) / 2, m.startCol)
                   else cleared;
    Made(Position(flagged, Some(m)), undo)
  }

  /** `movePiece(move)`.  A start or end off the board, an empty start tile and a castling
      move with an empty corner throw. */
  function MakeMove(pos: Position, m: MoveReq): Fallible<Made>
    requires Valid(pos.cells)
    decreases CastleRank(pos.cells, m)
  {
    if !InBounds(m.startRow, m.startCol) || !InBounds(m.endRow, m.endCol) then Crashed
    else match PieceAt(pos.cells, m.startRow, m.startCol)
      case None => Crashed
      case Some(piece) =>
        var captured := PieceAt(pos.cells, m.endRow, m.endCol);
        var lastEnPassant := AnyFlag(pos.cells);
        var isEnPassant := piece.kind == Pawn && FlagAt(pos.cells, m.endRow, m.endCol);
        var epCapture := if isEnPassant then PieceAt(pos.cells, m.startRow, m.endCol) else None;
        var cells := if isEnPassant then SetPiece(pos.cells, m.startRow, m.endCol, None) else pos.cells;
        if piece.kind == King && Abs(m.endCol - m.startCol) == 2 then
          match PieceAt(cells, m.startRow, CornerCol(m))
          case None => Crashed
          case Some(rook) =>
            var rookMove := MoveReq(None, rook.row, rook.col, m.startRow, RookCol(m));
            assert rook.row == m.startRow && rook.col == CornerCol(m);
            match MakeMove(Position(cells, pos.lastMove), rookMove)
            case Crashed => Crashed
            case Ok(rookMade) =>
              Ok(Land(rookMade.pos.cells, m, piece,
                      Undo(m, captured, piece.firstMove, lastEnPassant, epCapture, Some(rookMade.undo))))
        else
          Ok(Land(cells, m, piece, Undo(m, captured, piece.firstMove, lastEnPassant, epCapture, None)))
  }

  // ---------------------------------------------------------------- unmakeMove

  /** `unmakeMove(record)`.  The piece on the end tile goes back to the start tile with its old
      `firstMove`, the captured piece returns to the end tile, a pawn taken en passant to its
      tile, the castling rook's move is undone, and every flag is cleared.  The source then
      looks for a flagged tile to restore the old flag, but finds none, so no flag survives.
      An end tile without a piece throws. */
  function Unmake(pos: Position, u: Undo): Fallible<Position>
    decreases u
  {
    var m := u.move;
    if !InBounds(m.startRow, m.startCol) || !InBounds(m.endRow, m.endCol) then Crashed
    else match PieceAt(pos.cells, m.endRow, m.endCol)
      case None => Crashed
      case Some(piece) =>
        var cells := PutBack(pos.cells, u, piece);
        match u.rookUndo
        case None => Ok(Position(ClearFlags(cells), pos.lastMove))
        case Some(rookUndo) =>
          match Unmake(Position(cells, pos.lastMove), rookUndo)
          case Crashed => Crashed
          case Ok(p) => Ok(Position(ClearFlags(p.cells), pos.lastMove))
  }

  /** The tile writes of `unmakeMove` before the rook's move is undone. */
  function PutBack(cells: Cells, u: Undo, piece: Piece): Cells
    requires InBounds(u.move.startRow, u.move.startCol) && InBounds(u.move.endRow, u.move.endCol)
  {
    var m := u.move;
    var back := piece.(row := m.startRow, col := m.startCol, firstMove := u.wasFirstMove);
    var cells' := SetPiece(SetPiece(cells, m.startRow, m.startCol, Some(back)), m.endRow, m.endCol, u.captured);
    if u.epCapture.Some? then SetPiece(cells', m.startRow, m.endCol, u.epCapture) else cells'
  }

  // ---------------------------------------------------------------- the grid stays consistent

  /** Writing a piece that believes it stands on the tile keeps the grid consistent. */
  lemma SetPieceValid(cells: Cells, r: int, c: int, p: Option<Piece>)
    requires Valid(cells) && InBounds(r, c)
    requires p.Some? ==> p.value.row == r && p.value.col == c
    ensures Valid(SetPiece(cells, r, c, p))
  {
    var res := SetPiece(cells, r, c, p);
    forall r', c' | InBounds(r', c')
      ensures Agrees(res[Idx(r', c')], r', c')
    {
      if r' != r || c' != c {
        assert res[Idx(r', c')] == cells[Idx(r', c')];
      }
    }
  }

  /** Changing flags only keeps the grid consistent. */
  lemma SamePiecesValid(a: Cells, b: Cells)
    requires Valid(a)
    requires forall k :: 0 <= k < 64 ==> b[k].piece == a[k].piece
    ensures Valid(b)
  {
    forall r, c | InBounds(r, c)
      ensures Agrees(b[Idx(r, c)], r, c)
    {
      assert b[Idx(r, c)].piece == a[Idx(r, c)].piece;
    }
  }

  /** Every piece a record puts back believes it stands on the tile it is put on. */
  predicate UndoFits(u: Undo)
    decreases u
  {
    && (u.captured.Some? ==> u.captured.value.row == u.move.endRow && u.captured.value.col == u.move.endCol)
    && (u.epCapture.Some? ==> u.epCapture.value.row == u.move.startRow && u.epCapture.value.col == u.move.endCol)
    && (u.rookUndo.Some? ==> UndoFits(u.rookUndo.value))
  }

  lemma LandValid(cells: Cells, m: MoveReq, piece: Piece, undo: Undo)
    requires Valid(cells) && InBounds(m.startRow, m.startCol) && InBounds(m.endRow, m.endCol)
    ensures Valid(Land(cells, m, piece, undo).pos.cells)
  {
    var moved := piece.(row := m.endRow, col := m.endCol, firstMove := false);
    var landed := SetPiece(cells, m.endRow, m.endCol, Some(moved));
    SetPieceValid(cells, m.endRow, m.endCol, Some(moved));
    SetPieceValid(landed, m.startRow, m.startCol, None);
    var placed := SetPiece(landed, m.startRow, m.startCol, None);
    SamePiecesValid(placed, ClearFlags(placed));
    if piece.kind == Pawn && Abs(m.startRow - m.endRow) == 2 {
      SamePiecesValid(ClearFlags(placed), SetFlag(ClearFlags(placed), (m.startRow + m.endRow) / 2, m.startCol));
    }
  }

  /** `movePiece` keeps the grid consistent, and its record puts back only pieces that fit. */
  lemma {:induction false} MakeMoveValid(pos: Position, m: MoveReq)
    requires Valid(pos.cells) && MakeMove(pos, m).Ok?
    ensures Valid(MakeMove(pos, m).value.pos.cells)
    ensures UndoFits(MakeMove(pos, m).value.undo)
    decreases CastleRank(pos.cells, m)
  {
    var piece := PieceAt(pos.cells, m.startRow, m.startCol).value;
    var isEnPassant := piece.kind == Pawn && FlagAt(pos.cells, m.endRow, m.endCol);
    var cells := if isEnPassant then SetPiece(pos.cells, m.startRow, m.endCol, None) else pos.cells;
    if isEnPassant {
      SetPieceValid(pos.cells, m.startRow, m.endCol, None);
    }
    if piece.kind == King && Abs(m.endCol - m.startCol) == 2 {
      var rook := PieceAt(cells, m.startRow, CornerCol(m)).value;
      var rookMove := MoveReq(None, rook.row, rook.col, m.startRow, RookCol(m));
      MakeMoveValid(Position(cells, pos.lastMove), rookMove);
      var rookMade := MakeMove(Position(cells, pos.lastMove), rookMove).value;
      LandValid(rookMade.pos.cells, m, piece, MakeMove(pos, m).value.undo);
    } else {
      LandValid(cells, m, piece, MakeMove(pos, m).value.undo);
    }
  }

  /** `unmakeMove` keeps the grid consistent when the record puts back pieces that fit. */
  lemma {:induction false} UnmakeValid(pos: Position, u: Undo)
    requires Valid(pos.cells) && UndoFits(u) && Unmake(pos, u).Ok?
    ensures Valid(Unmake(pos, u).value.cells)
    decreases u
  {
    var m := u.move;
    var piece := PieceAt(pos.cells, m.endRow, m.endCol).value;
    var cells := PutBack(pos.cells, u, piece);
    PutBackValid(pos.cells, u, piece);
    if u.rookUndo.Some? {
      UnmakeValid(Position(cells, pos.lastMove), u.rookUndo.value);
      var p := Unmake(Position(cells, pos.lastMove), u.rookUndo.value).value;
      SamePiecesValid(p.cells, ClearFlags(p.cells));
    } else {
      SamePiecesValid(cells, ClearFlags(cells));
    }
  }

  lemma PutBackValid(cells: Cells, u: Undo, piece: Piece)
    requires Valid(cells) && UndoFits(u)
    requires InBounds(u.move.startRow, u.move.startCol) && InBounds(u.move.endRow, u.move.endCol)
    ensures Valid(PutBack(cells, u, piece))
  {
    var m := u.move;
    var back := piece.(row := m.startRow, col := m.startCol, firstMove := u.wasFirstMove);
    var cells0 := SetPiece(cells, m.startRow, m.startCol, Some(back));
    SetPieceValid(cells, m.startRow, m.startCol, Some(back));
    var cells1 := SetPiece(cells0, m.endRow, m.endCol, u.captured);
    SetPieceValid(cells0, m.endRow, m.endCol, u.captured);
    if u.epCapture.Some? {
      SetPieceValid(cells1, m.startRow, m.endCol, u.epCapture);
    }
  }

  // ---------------------------------------------------------------- unmakeMove undoes movePiece

  /** The moves that `unmakeMove` undoes exactly: from an occupied tile to another tile of
      the board, where a castling king stands on column 4 and the corner holds a piece that is
      not a king. */
  predicate Playable(cells: Cells, m: MoveReq) {
    && InBounds(m.startRow, m.startCol) && InBounds(m.endRow, m.endCol)
    && PieceAt(cells, m.startRow, m.startCol).Some?
    && (m.startRow != m.endRow || m.startCol != m.endCol)
    && (IsCastle(cells, m) ==>
          && m.startCol == 4
          && PieceAt(cells, m.startRow, CornerCol(m)).Some?
          && PieceAt(cells, m.startRow, CornerCol(m)).value.kind != King)
  }

  /** A round trip restores every piece, leaves no flag and keeps the move as `lastMove`. */
  ghost predicate Restored(before: Position, made: Made, m: MoveReq) {
    && Unmake(made.pos, made.undo).Ok?
    && SamePieces(Unmake(made.pos, made.undo).value.cells, before.cells)
    && NoFlags(Unmake(made.pos, made.undo).value.cells)
    && Unmake(made.pos, made.undo).value.lastMove == Some(m)
  }

  lemma SetPieceSame(a: Cells, b: Cells, r: int, c: int, p: Option<Piece>)
    requires SamePieces(a, b) && InBounds(r, c)
    ensures SamePieces(SetPiece(a, r, c, p), SetPiece(b, r, c, p))
  {
    forall r', c' | InBounds(r', c')
      ensures SetPiece(a, r, c, p)[Idx(r', c')].piece == SetPiece(b, r, c, p)[Idx(r', c')].piece
    {
      IdxInjective(r, c, r', c');
    }
  }

  lemma ClearFlagsSame(a: Cells, b: Cells)
    requires SamePieces(a, b)
    ensures SamePieces(ClearFlags(a), ClearFlags(b))
  {
    forall r, c | InBounds(r, c)
      ensures ClearFlags(a)[Idx(r, c)].piece == ClearFlags(b)[Idx(r, c)].piece
    {
      assert a[Idx(r, c)].piece == b[Idx(r, c)].piece;
    }
  }

  lemma PutBackSame(a: Cells, b: Cells, u: Undo, piece: Piece)
    requires SamePieces(a, b)
    requires InBounds(u.move.startRow, u.move.startCol) && InBounds(u.move.endRow, u.move.endCol)
    ensures SamePieces(PutBack(a, u, piece), PutBack(b, u, piece))
  {
    var m := u.move;
    var back := piece.(row := m.startRow, col := m.startCol, firstMove := u.wasFirstMove);
    SetPieceSame(a, b, m.startRow, m.startCol, Some(back));
    var a0 := SetPiece(a, m.startRow, m.startCol, Some(back));
    var b0 := SetPiece(b, m.startRow, m.startCol, Some(back));
    SetPieceSame(a0, b0, m.endRow, m.endCol, u.captured);
    if u.epCapture.Some? {
      SetPieceSame(SetPiece(a0, m.endRow, m.endCol, u.captured), SetPiece(b0, m.endRow, m.endCol, u.captured),
                   m.startRow, m.endCol, u.epCapture);
    }
  }

  /** `unmakeMove` reads only the pieces of the grid. */
  lemma {:induction false} UnmakeReadsPieces(a: Position, b: Position, u: Undo)
    requires SamePieces(a.cells, b.cells)
    ensures Unmake(a, u).Ok? <==> Unmake(b, u).Ok?
    ensures Unmake(a, u).Ok? ==> SamePieces(Unmake(a, u).value.cells, Unmake(b, u).value.cells)
    decreases u
  {
    var m := u.move;
    if InBounds(m.startRow, m.startCol) && InBounds(m.endRow, m.endCol) {
      var pa := PieceAt(a.cells, m.endRow, m.endCol);
      assert PieceAt(b.cells, m.endRow, m.endCol) == pa;
      if pa.Some? {
        var ca := PutBack(a.cells, u, pa.value);
        var cb := PutBack(b.cells, u, pa.value);
        PutBackSame(a.cells, b.cells, u, pa.value);
        if u.rookUndo.Some? {
          var ra := Unmake(Position(ca, a.lastMove), u.rookUndo.value);
          var rb := Unmake(Position(cb, b.lastMove), u.rookUndo.value);
          UnmakeReadsPieces(Position(ca, a.lastMove), Position(cb, b.lastMove), u.rookUndo.value);
          if ra.Ok? {
            ClearFlagsSame(ra.value.cells, rb.value.cells);
          }
        } else {
          ClearFlagsSame(ca, cb);
        }
      }
    }
  }

  /** Where `movePiece` leaves the pieces: the mover on the end tile, the start tile empty,
      every other tile as before. */
  lemma LandPieces(cells: Cells, m: MoveReq, piece: Piece, undo: Undo)
    requires InBounds(m.startRow, m.startCol) && InBounds(m.endRow, m.endCol)
    requires m.startRow != m.endRow || m.startCol != m.endCol
    ensures var after := Land(cells, m, piece, undo).pos.cells;
            && PieceAt(after, m.endRow, m.endCol) == Some(piece.(row := m.endRow, col := m.endCol, firstMove := false))
            && PieceAt(after, m.startRow, m.startCol).None?
            && forall r, c :: InBounds(r, c) && !(r == m.startRow && c == m.startCol) && !(r == m.endRow && c == m.endCol)
                 ==> PieceAt(after, r, c) == PieceAt(cells, r, c)
  {
  }

  /** A move that is not castling, undone. */
  lemma PlainRoundTrip(pos: Position, m: MoveReq)
    requires Valid(pos.cells) && Playable(pos.cells, m) && !IsCastle(pos.cells, m)
    ensures MakeMove(pos, m).Ok? && Restored(pos, MakeMove(pos, m).value, m)
  {
    var piece := PieceAt(pos.cells, m.startRow, m.startCol).value;
    var isEnPassant := piece.kind == Pawn && FlagAt(pos.cells, m.endRow, m.endCol);
    var cells := if isEnPassant then SetPiece(pos.cells, m.startRow, m.endCol, None) else pos.cells;
    MakePlain(pos, m);
    var made := MakeMove(pos, m).value;
    var after := made.pos.cells;
    LandPieces(cells, m, piece, made.undo);
    var moved := piece.(row := m.endRow, col := m.endCol, firstMove := false);
    var restored := PutBack(after, made.undo, moved);
    UnmakePlain(made.pos, made.undo, moved);
    forall r, c | InBounds(r, c)
      ensures ClearFlags(restored)[Idx(r, c)].piece == pos.cells[Idx(r, c)].piece
    {
      assert ClearFlags(restored)[Idx(r, c)].piece == PieceAt(restored, r, c);
      PutBackTile(after, made.undo, moved, r, c);
      PlainRestoreTile(pos.cells, cells, m, piece, isEnPassant, r, c);
    }
  }

  /** `movePiece` of a move that is not castling, unfolded. */
  lemma MakePlain(pos: Position, m: MoveReq)
    requires Valid(pos.cells) && InBounds(m.startRow, m.startCol) && InBounds(m.endRow, m.endCol)
    requires PieceAt(pos.cells, m.startRow, m.startCol).Some? && !IsCastle(pos.cells, m)
    ensures var piece := PieceAt(pos.cells, m.startRow, m.startCol).value;
            var isEnPassant := piece.kind == Pawn && FlagAt(pos.cells, m.endRow, m.endCol);
            var cells := if isEnPassant then SetPiece(pos.cells, m.startRow, m.endCol, None) else pos.cells;
            var epCapture := if isEnPassant then PieceAt(pos.cells, m.startRow, m.endCol) else None;
            MakeMove(pos, m) ==
              Ok(Land(cells, m, piece, Undo(m, PieceAt(pos.cells, m.endRow, m.endCol), piece.firstMove,
                                            AnyFlag(pos.cells), epCapture, None)))
  {
  }

  /** One tile after a plain move and its undo holds what it held before. */
  lemma PlainRestoreTile(orig: Cells, cells: Cells, m: MoveReq, piece: Piece, isEnPassant: bool, r: int, c: int)
    requires InBounds(m.startRow, m.startCol) && InBounds(m.endRow, m.endCol) && InBounds(r, c)
    requires cells == if isEnPassant then SetPiece(orig, m.startRow, m.endCol, None) else orig
    ensures (!(isEnPassant && r == m.startRow && c == m.endCol) && !(r == m.endRow && c == m.endCol)
             && !(r == m.startRow && c == m.startCol))
            ==> PieceAt(cells, r, c) == PieceAt(orig, r, c)
  {
  }

  /** What `PutBack` leaves on one tile. */
  lemma PutBackTile(cells: Cells, u: Undo, piece: Piece, r: int, c: int)
    requires InBounds(u.move.startRow, u.move.startCol) && InBounds(u.move.endRow, u.move.endCol) && InBounds(r, c)
    ensures var m := u.move;
            PieceAt(PutBack(cells, u, piece), r, c) ==
              if u.epCapture.Some? && r == m.startRow && c == m.endCol then u.epCapture
              else if r == m.endRow && c == m.endCol then u.captured
              else if r == m.startRow && c == m.startCol
              then Some(piece.(row := m.startRow, col := m.startCol, firstMove := u.wasFirstMove))
              else PieceAt(cells, r, c)
  {
  }

  /** A move that is not castling touches only its start, its end and the tile beside the
      start a pawn takes en passant from. */
  lemma PlainMovePieces(pos: Position, m: MoveReq)
    requires Valid(pos.cells) && Playable(pos.cells, m) && !IsCastle(pos.cells, m)
    ensures MakeMove(pos, m).Ok?
    ensures forall r, c :: InBounds(r, c) && !(r == m.startRow && c == m.startCol) && !(r == m.endRow && c == m.endCol)
              && !(r == m.startRow && c == m.endCol)
              ==> PieceAt(MakeMove(pos, m).value.pos.cells, r, c) == PieceAt(pos.cells, r, c)
  {
    var piece := PieceAt(pos.cells, m.startRow, m.startCol).value;
    var isEnPassant := piece.kind == Pawn && FlagAt(pos.cells, m.endRow, m.endCol);
    var cells := if isEnPassant then SetPiece(pos.cells, m.startRow, m.endCol, None) else pos.cells;
    var made := MakeMove(pos, m).value;
    assert made == Land(cells, m, piece, made.undo);
    LandPieces(cells, m, piece, made.undo);
  }

  /** Castling, undone: the king's move and then the corner piece's move are reverted. */
  lemma CastleRoundTrip(pos: Position, m: MoveReq)
    requires Valid(pos.cells) && Playable(pos.cells, m) && IsCastle(pos.cells, m)
    ensures MakeMove(pos, m).Ok? && Restored(pos, MakeMove(pos, m).value, m)
  {
    var king := PieceAt(pos.cells, m.startRow, m.startCol).value;
    var rook := PieceAt(pos.cells, m.startRow, CornerCol(m)).value;
    var rookMove := MoveReq(None, m.startRow, CornerCol(m), m.startRow, RookCol(m));
    assert rook.row == m.startRow && rook.col == CornerCol(m);
    assert Position(pos.cells, pos.lastMove) == pos;
    PlainRoundTrip(pos, rookMove);
    PlainMovePieces(pos, rookMove);
    var rookMade := MakeMove(pos, rookMove).value;
    var made := MakeMove(pos, m).value;
    assert made == Land(rookMade.pos.cells, m, king, made.undo);
    assert made.undo.rookUndo == Some(rookMade.undo) && made.undo.epCapture.None?;
    LandPieces(rookMade.pos.cells, m, king, made.undo);
    var moved := king.(row := m.endRow, col := m.endCol, firstMove := false);
    var cells := PutBack(made.pos.cells, made.undo, moved);
    forall r, c | InBounds(r, c)
      ensures cells[Idx(r, c)].piece == rookMade.pos.cells[Idx(r, c)].piece
    {
      PutBackTile(made.pos.cells, made.undo, moved, r, c);
    }
    UnmakeReadsPieces(Position(cells, Some(m)), rookMade.pos, rookMade.undo);
    var p := Unmake(Position(cells, Some(m)), rookMade.undo).value;
    var q := Unmake(rookMade.pos, rookMade.undo).value;
    assert PieceAt(made.pos.cells, m.endRow, m.endCol) == Some(moved);
    UnmakeNested(made.pos, made.undo, moved);
    forall r, c | InBounds(r, c)
      ensures ClearFlags(p.cells)[Idx(r, c)].piece == pos.cells[Idx(r, c)].piece
    {
      assert p.cells[Idx(r, c)].piece == q.cells[Idx(r, c)].piece;
    }
  }

  /** `unmakeMove` of a record without a castling rook. */
  lemma UnmakePlain(pos: Position, u: Undo, piece: Piece)
    requires InBounds(u.move.startRow, u.move.startCol) && InBounds(u.move.endRow, u.move.endCol)
    requires PieceAt(pos.cells, u.move.endRow, u.move.endCol) == Some(piece) && u.rookUndo.None?
    ensures Unmake(pos, u) == Ok(Position(ClearFlags(PutBack(pos.cells, u, piece)), pos.lastMove))
  {
  }

  /** The step of `unmakeMove` that undoes a castling rook's move. */
  lemma UnmakeNested(pos: Position, u: Undo, piece: Piece)
    requires InBounds(u.move.startRow, u.move.startCol) && InBounds(u.move.endRow, u.move.endCol)
    requires PieceAt(pos.cells, u.move.endRow, u.move.endCol) == Some(piece) && u.rookUndo.Some?
    ensures var inner := Unmake(Position(PutBack(pos.cells, u, piece), pos.lastMove), u.rookUndo.value);
            Unmake(pos, u) == if inner.Ok? then Ok(Position(ClearFlags(inner.value.cells), pos.lastMove)) else Crashed
  {
  }

  /** `unmakeMove(movePiece(move))` puts every piece back where it was, clears every flag and
      leaves the move as `lastMove`. */
  lemma RoundTrip(pos: Position, m: MoveReq)
    requires Valid(pos.cells) && Playable(pos.cells, m)
    ensures MakeMove(pos, m).Ok? && Restored(pos, MakeMove(pos, m).value, m)
  {
    if IsCastle(pos.cells, m) {
      CastleRoundTrip(pos, m);
    } else {
      PlainRoundTrip(pos, m);
    }
  }

  // ---------------------------------------------------------------- what movePiece does

  /** `movePiece` throws when a tile is off the board, when the start tile is empty, and when
      a castling king finds its corner empty. */
  lemma MakeMoveCrashes(pos: Position, m: MoveReq)
    requires Valid(pos.cells)
    requires || !InBounds(m.startRow, m.startCol) || !InBounds(m.endRow, m.endCol)
             || PieceAt(pos.cells, m.startRow, m.startCol).None?
             || (IsCastle(pos.cells, m) && PieceAt(pos.cells, m.startRow, CornerCol(m)).None?)
    ensures MakeMove(pos, m).Crashed?
  {
  }

  /** After `movePiece` only the square a pawn passed on a two-row advance is flagged. */
  lemma LandFlags(cells: Cells, m: MoveReq, piece: Piece, undo: Undo)
    requires InBounds(m.startRow, m.startCol) && InBounds(m.endRow, m.endCol)
    ensures var after := Land(cells, m, piece, undo).pos.cells;
            if piece.kind == Pawn && Abs(m.startRow - m.endRow) == 2
            then InBounds((m.startRow + m.endRow) / 2, m.startCol)
                 && FlagAt(after, (m.startRow + m.endRow) / 2, m.startCol)
                 && OnlyFlag(after, (m.startRow + m.endRow) / 2, m.startCol)
            else NoFlags(after)
  {
    var moved := piece.(row := m.endRow, col := m.endCol, firstMove := false);
    var placed := SetPiece(SetPiece(cells, m.endRow, m.endCol, Some(moved)), m.startRow, m.startCol, None);
    var cleared := ClearFlags(placed);
    if piece.kind == Pawn && Abs(m.startRow - m.endRow) == 2 {
      var r := (m.startRow + m.endRow) / 2;
      var after := SetFlag(cleared, r, m.startCol);
      forall r', c' | InBounds(r', c') && !(r' == r && c' == m.startCol)
        ensures !after[Idx(r', c')].enPassant
      {
        assert after[Idx(r', c')] == cleared[Idx(r', c')];
      }
    }
  }

  /** A move that is not castling: the mover stands on the end tile without `firstMove`, the
      start tile is empty, a pawn moving onto a flagged tile removes the piece beside its start
      on the end column, every other tile keeps its piece, only a two-row pawn advance leaves a
      flag (on the square passed) and the move becomes `lastMove`. */
  lemma PlainMoveEffect(pos: Position, m: MoveReq)
    requires Valid(pos.cells) && Playable(pos.cells, m) && !IsCastle(pos.cells, m)
    ensures MakeMove(pos, m).Ok?
    ensures var piece := PieceAt(pos.cells, m.startRow, m.startCol).value;
            var after := MakeMove(pos, m).value.pos;
            && PieceAt(after.cells, m.endRow, m.endCol) == Some(piece.(row := m.endRow, col := m.endCol, firstMove := false))
            && PieceAt(after.cells, m.startRow, m.startCol).None?
            && (piece.kind == Pawn && FlagAt(pos.cells, m.endRow, m.endCol) && m.startRow != m.endRow
                ==> PieceAt(after.cells, m.startRow, m.endCol).None?)
            && (forall r, c :: (InBounds(r, c) && !(r == m.startRow && c == m.startCol) && !(r == m.endRow && c == m.endCol)
                                && !(r == m.startRow && c == m.endCol))
                               ==> PieceAt(after.cells, r, c) == PieceAt(pos.cells, r, c))
            && (if piece.kind == Pawn && Abs(m.startRow - m.endRow) == 2
                then FlagAt(after.cells, (m.startRow + m.endRow) / 2, m.startCol)
                     && OnlyFlag(after.cells, (m.startRow + m.endRow) / 2, m.startCol)
                else NoFlags(after.cells))
            && after.lastMove == Some(m)
  {
    var piece := PieceAt(pos.cells, m.startRow, m.startCol).value;
    var isEnPassant := piece.kind == Pawn && FlagAt(pos.cells, m.endRow, m.endCol);
    var cells := if isEnPassant then SetPiece(pos.cells, m.startRow, m.endCol, None) else pos.cells;
    var made := MakeMove(pos, m).value;
    assert made == Land(cells, m, piece, made.undo);
    LandPieces(cells, m, piece, made.undo);
    LandFlags(cells, m, piece, made.undo);
    PlainMovePieces(pos, m);
  }

  /** Castling: the king stands two columns over and the corner piece on the column the king
      passed (5 or 3), both without `firstMove`; their old tiles are empty, no tile is flagged
      and the king's move becomes `lastMove`. */
  lemma CastleEffect(pos: Position, m: MoveReq)
    requires Valid(pos.cells) && Playable(pos.cells, m) && IsCastle(pos.cells, m)
    ensures MakeMove(pos, m).Ok?
    ensures var king := PieceAt(pos.cells, m.startRow, m.startCol).value;
            var rook := PieceAt(pos.cells, m.startRow, CornerCol(m)).value;
            var after := MakeMove(pos, m).value.pos;
            && PieceAt(after.cells, m.endRow, m.endCol) == Some(king.(row := m.endRow, col := m.endCol, firstMove := false))
            && PieceAt(after.cells, m.startRow, RookCol(m)) == Some(rook.(col := RookCol(m), firstMove := false))
            && PieceAt(after.cells, m.startRow, m.startCol).None?
            && PieceAt(after.cells, m.startRow, CornerCol(m)).None?
            && NoFlags(after.cells)
            && after.lastMove == Some(m)
  {
    var king := PieceAt(pos.cells, m.startRow, m.startCol).value;
    var rook := PieceAt(pos.cells, m.startRow, CornerCol(m)).value;
    var rookMove := MoveReq(None, m.startRow, CornerCol(m), m.startRow, RookCol(m));
    assert rook.row == m.startRow && rook.col == CornerCol(m);
    assert Position(pos.cells, pos.lastMove) == pos;
    PlainMoveEffect(pos, rookMove);
    var rookMade := MakeMove(pos, rookMove).value;
    var made := MakeMove(pos, m).value;
    assert made == Land(rookMade.pos.cells, m, king, made.undo);
    LandPieces(rookMade.pos.cells, m, king, made.undo);
    LandFlags(rookMade.pos.cells, m, king, made.undo);
  }

  // ---------------------------------------------------------------- getKing

  predicate KingOf(t: Tile, color: Color) {
    t.piece.Some? && t.piece.value.kind == King && t.piece.value.color == color
  }

  /** `getKing(color)`: the first king of that colour in row-major order, or `undefined`. */
  function FindKing(cells: Cells, color: Color): (r: Option<Piece>)
    ensures r.Some? ==> exists k :: 0 <= k < 64 && cells[k].piece == r && KingOf(cells[k], color)
    ensures r.None? <==> forall k :: 0 <= k < 64 ==> !KingOf(cells[k], color)
  {
    FindKingFrom(cells, color, 0)
  }

  /** The first king of `color` at flat index k or later. */
  function FindKingFrom(cells: Cells, color: Color, k: nat): (r: Option<Piece>)
    requires k <= 64
    ensures r.Some? ==> exists i :: k <= i < 64 && cells[i].piece == r && KingOf(cells[i], color)
                                    && forall j :: k <= j < i ==> !KingOf(cells[j], color)
    ensures r.None? <==> forall i :: k <= i < 64 ==> !KingOf(cells[i], color)
    decreases 64 - k
  {
    if k == 64 then None
    else if KingOf(cells[k], color) then cells[k].piece
    else FindKingFrom(cells, color, k + 1)
  }

  // ---------------------------------------------------------------- setupPieces

  /** The back-rank order of `setupPieces`, by column. */
  function BackRank(c: int): Kind {
    if c == 0 || c == 7 then Rook
    else if c == 1 || c == 6 then Knight
    else if c == 2 || c == 5 then Bishop
    else if c == 3 then Queen
    else King
  }

  /** Colour and kind `setupPieces` puts on (r, c): black on rows 0 and 1, white on rows 6
      and 7, pawns on the inner rows. */
  function HomePiece(r: int, c: int): Option<(Color, Kind)> {
    if r == 0 then Some((Black, BackRank(c)))
    else if r == 1 then Some((Black, Pawn))
    else if r == 6 then Some((White, Pawn))
    else if r == 7 then Some((White, BackRank(c)))
    else None
  }

  /** The fresh piece object `setupPieces` creates for (r, c); its tile index is its identity. */
  function NewPiece(color: Color, kind: Kind, r: int, c: int): Piece
    requires InBounds(r, c)
  {
    Piece(Idx(r, c), color, kind, true, r, c)
  }

  /** The grid of `new Board()`: every home square holds its fresh piece, no tile is flagged. */
  function InitialCells(): (cells: Cells)
    ensures Valid(cells) && NoFlags(cells)
    ensures forall r, c :: InBounds(r, c) ==>
              PieceAt(cells, r, c) == (if HomePiece(r, c).Some?
                                       then Some(NewPiece(HomePiece(r, c).value.0, HomePiece(r, c).value.1, r, c))
                                       else None)
  {
    seq(64, k requires 0 <= k < 64 =>
      var r := k / 8;
      var c := k % 8;
      Tile(if HomePiece(r, c).Some? then Some(NewPiece(HomePiece(r, c).value.0, HomePiece(r, c).value.1, r, c)) else None,
           false))
  }

  // ---------------------------------------------------------------- unmoved kings stay home

  /** A king whose `firstMove` is still set stands on column 4, where `setupPieces` put it. */
  ghost predicate KingsHome(cells: Cells) {
    forall r, c ::
      (InBounds(r, c) && PieceAt(cells, r, c).Some? && PieceAt(cells, r, c).value.firstMove
       && PieceAt(cells, r, c).value.kind == King) ==> c == 4
  }

  lemma InitialHome()
    ensures KingsHome(InitialCells())
  {
  }

  lemma SetPieceHome(cells: Cells, r: int, c: int, p: Option<Piece>)
    requires KingsHome(cells) && InBounds(r, c)
    requires p.Some? && p.value.firstMove && p.value.kind == King ==> c == 4
    ensures KingsHome(SetPiece(cells, r, c, p))
  {
    var res := SetPiece(cells, r, c, p);
    forall r', c' | InBounds(r', c') && !(r' == r && c' == c)
      ensures PieceAt(res, r', c') == PieceAt(cells, r', c')
    {
    }
  }

  lemma SamePiecesHome(a: Cells, b: Cells)
    requires KingsHome(a)
    requires forall k :: 0 <= k < 64 ==> b[k].piece == a[k].piece
    ensures KingsHome(b)
  {
    forall r, c | InBounds(r, c)
      ensures PieceAt(b, r, c) == PieceAt(a, r, c)
    {
    }
  }

  lemma LandHome(cells: Cells, m: MoveReq, piece: Piece, undo: Undo)
    requires KingsHome(cells) && InBounds(m.startRow, m.startCol) && InBounds(m.endRow, m.endCol)
    ensures KingsHome(Land(cells, m, piece, undo).pos.cells)
  {
    var moved := piece.(row := m.endRow, col := m.endCol, firstMove := false);
    var landed := SetPiece(cells, m.endRow, m.endCol, Some(moved));
    SetPieceHome(cells, m.endRow, m.endCol, Some(moved));
    SetPieceHome(landed, m.startRow, m.startCol, None);
    var placed := SetPiece(landed, m.startRow, m.startCol, None);
    SamePiecesHome(placed, ClearFlags(placed));
    if piece.kind == Pawn && Abs(m.startRow - m.endRow) == 2 {
      SamePiecesHome(ClearFlags(placed), SetFlag(ClearFlags(placed), (m.startRow + m.endRow) / 2, m.startCol));
    }
  }

  /** `movePiece` keeps every unmoved piece on its home square: the pieces it moves lose
      `firstMove` and the others stay put. */
  lemma {:induction false} MakeMoveHome(pos: Position, m: MoveReq)
    requires Valid(pos.cells) && KingsHome(pos.cells) && MakeMove(pos, m).Ok?
    ensures KingsHome(MakeMove(pos, m).value.pos.cells)
    decreases CastleRank(pos.cells, m)
  {
    var piece := PieceAt(pos.cells, m.startRow, m.startCol).value;
    var isEnPassant := piece.kind == Pawn && FlagAt(pos.cells, m.endRow, m.endCol);
    var cells := if isEnPassant then SetPiece(pos.cells, m.startRow, m.endCol, None) else pos.cells;
    if isEnPassant {
      SetPieceHome(pos.cells, m.startRow, m.endCol, None);
    }
    if piece.kind == King && Abs(m.endCol - m.startCol) == 2 {
      var rook := PieceAt(cells, m.startRow, CornerCol(m)).value;
      var rookMove := MoveReq(None, rook.row, rook.col, m.startRow, RookCol(m));
      MakeMoveHome(Position(cells, pos.lastMove), rookMove);
      var rookMade := MakeMove(Position(cells, pos.lastMove), rookMove).value;
      LandHome(rookMade.pos.cells, m, piece, MakeMove(pos, m).value.undo);
    } else {
      LandHome(cells, m, piece, MakeMove(pos, m).value.undo);
    }
  }

  /** `promotePawn(row, col)`: the piece on (row, col) is replaced by a new Queen object of its
      colour, on the same tile and with `firstMove` set; `id` is the new object's identity. */
  function Promote(cells: Cells, r: int, c: int, id: nat): Cells
    requires InBounds(r, c) && PieceAt(cells, r, c).Some?
  {
    var p := PieceAt(cells, r, c).value;
    SetPiece(cells, r, c, Some(Piece(id, p.color, Queen, true, p.row, p.col)))
  }

  /** A promotion keeps the grid consistent and every unmoved king on column 4, so what is
      proved under `KingsHome` holds after a promotion as well; the Queen keeps the colour and
      square of the piece it replaces, and no other tile changes. */
  lemma PromoteHome(cells: Cells, r: int, c: int, id: nat)
    requires Valid(cells) && KingsHome(cells) && InBounds(r, c) && PieceAt(cells, r, c).Some?
    ensures Valid(Promote(cells, r, c, id)) && KingsHome(Promote(cells, r, c, id))
    ensures var q := PieceAt(Promote(cells, r, c, id), r, c);
            q.Some? && q.value.kind == Queen && q.value.firstMove
            && q.value.color == PieceAt(cells, r, c).value.color && q.value.row == r && q.value.col == c
    ensures forall r', c' :: InBounds(r', c') && (r' != r || c' != c) ==>
              TileAt(Promote(cells, r, c, id), r', c') == TileAt(cells, r', c')
  {
    var p := PieceAt(cells, r, c).value;
    var q := Piece(id, p.color, Queen, true, p.row, p.col);
    assert p.row == r && p.col == c;
    SetPieceValid(cells, r, c, Some(q));
    SetPieceHome(cells, r, c, Some(q));
  }

  /** On a consistent board whose unmoved kings are at home, a castling king stands on
      column 4 and an unmoved corner piece is not a king. */
  lemma HomeCastle(cells: Cells, m: MoveReq)
    requires Valid(cells) && KingsHome(cells) && IsCastle(cells, m)
    requires PieceAt(cells, m.startRow, m.startCol).value.firstMove
    requires InBounds(m.startRow, CornerCol(m)) && PieceAt(cells, m.startRow, CornerCol(m)).Some?
    requires PieceAt(cells, m.startRow, CornerCol(m)).value.firstMove
    ensures m.startCol == 4 && PieceAt(cells, m.startRow, CornerCol(m)).value.kind != King
  {
  }

  // ---------------------------------------------------------------- generated moves

  /** The request for moving the piece on (r, c) to t. */
  function MoveTo(mover: Option<nat>, r: int, c: int, t: Coord): MoveReq {
    MoveReq(mover, r, c, t.row, t.col)
  }

  /** The target is a square of the board other than the piece's own. */
  predicate MovesAway(p: Piece, t: Coord) {
    InBounds(t.row, t.col) && (t.row != p.row || t.col != p.col)
  }

  lemma PawnTargetsAway(pos: Position, p: Piece, t: Coord)
    requires InBounds(p.row, p.col) && t in PawnValidMoves(pos, p).moves
    ensures MovesAway(p, t)
  {
    PawnMovesExact(pos, p, t);
  }

  lemma PieceTargetsAway(cells: Cells, p: Piece, t: Coord)
    requires InBounds(p.row, p.col) && t in PieceMoves(cells, p.row, p.col, p)
    ensures MovesAway(p, t)
  {
    match p.kind
    case Knight =>
      KnightAttack(cells, p.row, p.col, p, t);
    case Rook =>
      RookAttack(cells, p.row, p.col, p, t);
      var d :| Orthogonal(d) && ClearLine(cells, p.row, p.col, d, p.color, t);
      ClearLineTarget(cells, p.row, p.col, d, p.color, t);
    case Bishop =>
      BishopAttack(cells, p.row, p.col, p, t);
      var d :| Diagonal(d) && ClearLine(cells, p.row, p.col, d, p.color, t);
      ClearLineTarget(cells, p.row, p.col, d, p.color, t);
    case Queen =>
      QueenAttack(cells, p.row, p.col, p, t);
      if OrthogonalReach(cells, p.row, p.col, p.color, t) {
        var d :| Orthogonal(d) && ClearLine(cells, p.row, p.col, d, p.color, t);
        ClearLineTarget(cells, p.row, p.col, d, p.color, t);
      } else {
        var d :| Diagonal(d) && ClearLine(cells, p.row, p.col, d, p.color, t);
        ClearLineTarget(cells, p.row, p.col, d, p.color, t);
      }
    case _ =>
  }

  /** A king's generated move: a step away, or castling from column 4 with a rook in the corner. */
  lemma KingTargetsPlayable(cells: Cells, p: Piece, t: Coord, mover: Option<nat>)
    requires Valid(cells) && KingsHome(cells)
    requires InBounds(p.row, p.col) && PieceAt(cells, p.row, p.col) == Some(p) && p.kind == King
    requires SafeStep(cells, p, t) || CastleTo(cells, p, t)
    ensures Playable(cells, MoveTo(mover, p.row, p.col, t))
  {
    if SafeStep(cells, p, t) {
      StepPlayable(cells, p, t, mover);
    } else {
      CastlePlayable(cells, p, t, mover);
    }
  }

  lemma StepPlayable(cells: Cells, p: Piece, t: Coord, mover: Option<nat>)
    requires InBounds(p.row, p.col) && PieceAt(cells, p.row, p.col) == Some(p)
    requires InBounds(t.row, t.col) && KingStep(t.row - p.row, t.col - p.col)
    ensures Playable(cells, MoveTo(mover, p.row, p.col, t))
  {
  }

  lemma CastlePlayable(cells: Cells, p: Piece, t: Coord, mover: Option<nat>)
    requires Valid(cells) && KingsHome(cells)
    requires InBounds(p.row, p.col) && PieceAt(cells, p.row, p.col) == Some(p) && p.kind == King
    requires CastleTo(cells, p, t)
    ensures Playable(cells, MoveTo(mover, p.row, p.col, t))
  {
    var m := MoveTo(mover, p.row, p.col, t);
    var corner := PieceAt(cells, p.row, CornerCol(m));
    assert corner.Some? && corner.value.firstMove;
  }

  /** Every move a piece's generator offers is one that `unmakeMove` undoes exactly, provided
      the grid is consistent and unmoved pieces are at home. */
  lemma GeneratedPlayable(pos: Position, p: Piece, t: Coord, mover: Option<nat>)
    requires Valid(pos.cells) && KingsHome(pos.cells)
    requires InBounds(p.row, p.col) && PieceAt(pos.cells, p.row, p.col) == Some(p)
    requires t in ValidMovesOf(pos, p).moves
    ensures Playable(pos.cells, MoveTo(mover, p.row, p.col, t))
  {
    ValidMovesOfKind(pos, p);
    if p.kind == King {
      KingMovesExact(pos.cells, p, t);
      KingTargetsPlayable(pos.cells, p, t, mover);
    } else if p.kind == Pawn {
      PawnTargetsAway(pos, p, t);
    } else {
      PieceTargetsAway(pos.cells, p, t);
    }
  }
}
