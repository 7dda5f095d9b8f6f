/**
  The `Board` object of the second chess engine (docs/chess/chess.js): a grid of tiles and
  the last move.  `movePiece` has no undo record here: the AI puts a tried move back by hand
  (see `DocsAI`).  The value functions come first; the class follows them method by method.
 */
module DocsBoard {
  import opened ChessTypes
  import opened ChessBoard
  import opened DocsDirections
  import opened DocsRules
  import BoardObject

  /** The move object `getAllMoves` builds: the piece object and the two squares. */
  datatype Move = Move(piece: Piece, startRow: int, startCol: int, endRow: int, endCol: int)

  // ---------------------------------------------------------------- movePiece

  /** `movePiece` treats a king moving two columns as castling. */
  predicate Castling(piece: Piece, m: Move) {
    piece.kind == King && Abs(m.endCol - m.startCol) == 2
  }

  /** A pawn moving two rows flags the square it passes over. */
  predicate DoubleStep(piece: Piece, m: Move) {
    piece.kind == Pawn && Abs(m.startRow - m.endRow) == 2
  }

  /** The rook's column before castling towards `endCol`: column 7 for column 6, else 0. */
  function Corner(endCol: int): int {
    if endCol == 6 then 7 else 0
  }

  /** The rook's column after castling towards `endCol`: column 5 for column 6, else 3. */
  function Beside(endCol: int): int {
    if endCol == 6 then 5 else 3
  }

  /** The rook half of castling in `movePiece`: the piece in the corner moves next to the
      king's target and learns its new tile; an empty corner throws. */
  function CastleRook(cells: Cells, row: int, endCol: int): Fallible<Cells>
    requires 0 <= row < 8
  {
    match PieceAt(cells, row, Corner(endCol))
    case None => Crashed
    case Some(rook) =>
      Ok(SetPiece(SetPiece(cells, row, Beside(endCol), Some(rook.(row := row, col := Beside(endCol)))),
                  row, Corner(endCol), None))
  }

  /** `movePiece(move)`: a pawn landing on a flagged tile removes the piece beside its start;
      castling moves the rook; the mover goes to its target, learns the tile and loses its
      first move; every flag is cleared and a pawn's double step flags the square it passed.
      A missing tile, an empty start or an empty castling corner throws. */
  function Moved(cells: Cells, m: Move): (r: Fallible<Cells>)
    ensures r.Ok? ==> InBounds(m.startRow, m.startCol) && InBounds(m.endRow, m.endCol)
                      && PieceAt(cells, m.startRow, m.startCol).Some?
  {
    if !InBounds(m.startRow, m.startCol) || !InBounds(m.endRow, m.endCol)
       || PieceAt(cells, m.startRow, m.startCol).None?
    then Crashed
    else
      var piece := PieceAt(cells, m.startRow, m.startCol).value;
      var taken := if piece.kind == Pawn && FlagAt(cells, m.endRow, m.endCol)
                   then SetPiece(cells, m.startRow, m.endCol, None) else cells;
      var rooked := if Castling(piece, m) then CastleRook(taken, m.startRow, m.endCol) else Ok(taken);
      if rooked.Crashed? then Crashed
      else Ok(Landed(rooked.value, piece, m))
  }

  /** The last part of `movePiece`: the mover lands, its start empties, the flags reset. */
  function Landed(cells: Cells, piece: Piece, m: Move): Cells
    requires InBounds(m.startRow, m.startCol) && InBounds(m.endRow, m.endCol)
  {
    var placed := SetPiece(cells, m.endRow, m.endCol, Some(piece.(row := m.endRow, col := m.endCol, firstMove := false)));
    var left := ClearFlags(SetPiece(placed, m.startRow, m.startCol, None));
    if DoubleStep(piece, m) then SetFlag(left, (m.startRow + m.endRow) / 2, m.startCol) else left
  }

  /** A square `movePiece` may write a piece to: the start, the target, the square beside the
      start a pawn captures en passant, and the two rook squares of castling. */
  predicate Touched(cells: Cells, m: Move, piece: Piece, r: int, c: int) {
    (r == m.startRow && c == m.startCol) || (r == m.endRow && c == m.endCol)
    || (piece.kind == Pawn && InBounds(m.endRow, m.endCol) && FlagAt(cells, m.endRow, m.endCol) && r == m.startRow && c == m.endCol)
    || (Castling(piece, m) && r == m.startRow && (c == Corner(m.endCol) || c == Beside(m.endCol)))
  }

  /** `movePiece` throws exactly when a tile is missing, the start is empty, or castling finds
      its corner empty. */
  lemma MovedCrashes(cells: Cells, m: Move)
    ensures Moved(cells, m).Crashed? <==>
              !InBounds(m.startRow, m.startCol) || !InBounds(m.endRow, m.endCol)
              || PieceAt(cells, m.startRow, m.startCol).None?
              || (Castling(PieceAt(cells, m.startRow, m.startCol).value, m)
                  && PieceAt(cells, m.startRow, Corner(m.endCol)).None?)
  {
  }

  /** What `movePiece` does to the mover's two squares and to the flags; every square it
      does not touch keeps its occupant. */
  lemma MovedEffect(cells: Cells, m: Move)
    requires Moved(cells, m).Ok?
    ensures var after := Moved(cells, m).value;
            var piece := PieceAt(cells, m.startRow, m.startCol).value;
            && PieceAt(after, m.startRow, m.startCol).None?
            && ((m.startRow, m.startCol) != (m.endRow, m.endCol) ==>
                  PieceAt(after, m.endRow, m.endCol) == Some(piece.(row := m.endRow, col := m.endCol, firstMove := false)))
            && (forall r, c :: InBounds(r, c) && !Touched(cells, m, piece, r, c) ==>
                  PieceAt(after, r, c) == PieceAt(cells, r, c))
  {
    var piece := PieceAt(cells, m.startRow, m.startCol).value;
    var taken: Cells := if piece.kind == Pawn && FlagAt(cells, m.endRow, m.endCol)
                 then SetPiece(cells, m.startRow, m.endCol, None) else cells;
    var rooked := if Castling(piece, m) then CastleRook(taken, m.startRow, m.endCol) else Ok(taken);
    assert Moved(cells, m).value == Landed(rooked.value, piece, m);
    forall r, c | InBounds(r, c) && !Touched(cells, m, piece, r, c)
      ensures PieceAt(rooked.value, r, c) == PieceAt(cells, r, c)
    {
      assert PieceAt(taken, r, c) == PieceAt(cells, r, c);
    }
  }

  /** The flags after `movePiece`: only the square a pawn's double step passed over, and
      none after any other move. */
  lemma MovedFlags(cells: Cells, m: Move)
    requires Moved(cells, m).Ok?
    ensures var after := Moved(cells, m).value;
            var piece := PieceAt(cells, m.startRow, m.startCol).value;
            && (DoubleStep(piece, m) ==> FlagAt(after, (m.startRow + m.endRow) / 2, m.startCol)
                                         && OnlyFlag(after, (m.startRow + m.endRow) / 2, m.startCol))
            && (!DoubleStep(piece, m) ==> NoFlags(after))
  {
  }

  /** A pawn that lands on a flagged square from another row removes the piece beside its
      start, on the target's column. */
  lemma MovedEnPassant(cells: Cells, m: Move)
    requires Moved(cells, m).Ok?
    requires PieceAt(cells, m.startRow, m.startCol).value.kind == Pawn && FlagAt(cells, m.endRow, m.endCol)
    requires m.startRow != m.endRow
    ensures PieceAt(Moved(cells, m).value, m.startRow, m.endCol).None?
  {
    var piece := PieceAt(cells, m.startRow, m.startCol).value;
    var taken := SetPiece(cells, m.startRow, m.endCol, None);
    assert Moved(cells, m).value == Landed(taken, piece, m);
  }

  /** Castling takes the piece in the corner next to the king's target, telling it its new
      tile, and empties the corner (unless the king itself lands there). */
  lemma MovedCastles(cells: Cells, m: Move)
    requires Moved(cells, m).Ok?
    requires Castling(PieceAt(cells, m.startRow, m.startCol).value, m)
    ensures PieceAt(cells, m.startRow, Corner(m.endCol)).Some?
    ensures var after := Moved(cells, m).value;
            var rook := PieceAt(cells, m.startRow, Corner(m.endCol)).value;
            var to := Beside(m.endCol);
            && (to != m.endCol && to != m.startCol ==>
                  PieceAt(after, m.startRow, to) == Some(rook.(row := m.startRow, col := to)))
            && (Corner(m.endCol) != m.endCol ==> PieceAt(after, m.startRow, Corner(m.endCol)).None?)
  {
    var piece := PieceAt(cells, m.startRow, m.startCol).value;
    var rooked := CastleRook(cells, m.startRow, m.endCol);
    assert Moved(cells, m).value == Landed(rooked.value, piece, m);
  }

  /** `movePiece` keeps every piece's `tile` reference in step with the grid. */
  lemma MovedValid(cells: Cells, m: Move)
    requires Valid(cells) && Moved(cells, m).Ok?
    ensures Valid(Moved(cells, m).value)
  {
    var piece := PieceAt(cells, m.startRow, m.startCol).value;
    var taken := cells;
    if piece.kind == Pawn && FlagAt(cells, m.endRow, m.endCol) {
      taken := SetPiece(cells, m.startRow, m.endCol, None);
      SetPieceValid(cells, m.startRow, m.endCol, None);
    }
    var rooked := taken;
    if Castling(piece, m) {
      var row, endCol := m.startRow, m.endCol;
      var rook := PieceAt(taken, row, Corner(endCol)).value;
      var moved := SetPiece(taken, row, Beside(endCol), Some(rook.(row := row, col := Beside(endCol))));
      SetPieceValid(taken, row, Beside(endCol), Some(rook.(row := row, col := Beside(endCol))));
      rooked := SetPiece(moved, row, Corner(endCol), None);
      SetPieceValid(moved, row, Corner(endCol), None);
      assert CastleRook(taken, row, endCol) == Ok(rooked);
    }
    assert Moved(cells, m).value == Landed(rooked, piece, m);
    LandedValid(rooked, piece, m);
  }

  lemma LandedValid(cells: Cells, piece: Piece, m: Move)
    requires Valid(cells) && InBounds(m.startRow, m.startCol) && InBounds(m.endRow, m.endCol)
    ensures Valid(Landed(cells, piece, m))
  {
    var mover := piece.(row := m.endRow, col := m.endCol, firstMove := false);
    var placed := SetPiece(cells, m.endRow, m.endCol, Some(mover));
    SetPieceValid(cells, m.endRow, m.endCol, Some(mover));
    var emptied := SetPiece(placed, m.startRow, m.startCol, None);
    SetPieceValid(placed, m.startRow, m.startCol, None);
    var left := ClearFlags(emptied);
    SamePiecesValid(emptied, left);
    if DoubleStep(piece, m) {
      SamePiecesValid(left, SetFlag(left, (m.startRow + m.endRow) / 2, m.startCol));
    }
  }

  // ---------------------------------------------------------------- getAllMoves

  /** The moves `getAllMoves` pushes for the piece p found on (i, j), one per target. */
  function MovesFrom(p: Piece, i: int, j: int, ts: seq<Coord>): (ms: seq<Move>)
    ensures |ms| == |ts|
    ensures forall n :: 0 <= n < |ts| ==> ms[n] == Move(p, i, j, ts[n].row, ts[n].col)
  {
    seq(|ts|, n requires 0 <= n < |ts| => Move(p, i, j, ts[n].row, ts[n].col))
  }

  /** What flat square k adds to `getAllMoves(board, color)`: the moves of its piece when
      that piece has the colour asked for. */
  ghost function SquareMoves(cells: Cells, color: Color, k: nat): seq<Move>
    requires k < 64
  {
    var p := cells[k].piece;
    if p.Some? && p.value.color == color then MovesFrom(p.value, k / 8, k % 8, MovesOf(cells, p.value)) else []
  }

  /** `getAllMoves` over the first n squares in row-major order. */
  ghost function AllMovesUpTo(cells: Cells, color: Color, n: nat): seq<Move>
    requires n <= 64
  {
    if n == 0 then [] else AllMovesUpTo(cells, color, n - 1) + SquareMoves(cells, color, n - 1)
  }

  /** `getAllMoves(board, color)`: every move of every piece of `color`, square by square. */
  ghost function AllMoves(cells: Cells, color: Color): seq<Move> {
    AllMovesUpTo(cells, color, 64)
  }

  /** A move is listed for the first n squares exactly when its start is one of them, holds
      the move's piece, of the colour asked for, and the target is one of that piece's moves. */
  lemma {:induction false} AllMovesUpToMembers(cells: Cells, color: Color, n: nat, m: Move)
    requires n <= 64
    ensures m in AllMovesUpTo(cells, color, n) <==>
              InBounds(m.startRow, m.startCol) && Idx(m.startRow, m.startCol) < n
              && PieceAt(cells, m.startRow, m.startCol) == Some(m.piece) && m.piece.color == color
              && Coord(m.endRow, m.endCol) in MovesOf(cells, m.piece)
  {
    if n > 0 {
      AllMovesUpToMembers(cells, color, n - 1, m);
      var k := n - 1;
      var i, j := k / 8, k % 8;
      assert InBounds(i, j) && Idx(i, j) == k;
      assert m in AllMovesUpTo(cells, color, n) <==> m in AllMovesUpTo(cells, color, k) || m in SquareMoves(cells, color, k);
      var p := cells[k].piece;
      if p.Some? && p.value.color == color {
        var ts := MovesOf(cells, p.value);
        if m in SquareMoves(cells, color, k) {
          var x :| 0 <= x < |ts| && MovesFrom(p.value, i, j, ts)[x] == m;
          assert Coord(m.endRow, m.endCol) == ts[x];
        }
        if InBounds(m.startRow, m.startCol) && Idx(m.startRow, m.startCol) == k
           && PieceAt(cells, m.startRow, m.startCol) == Some(m.piece)
           && Coord(m.endRow, m.endCol) in ts {
          IdxInjective(m.startRow, m.startCol, i, j);
          var x :| 0 <= x < |ts| && ts[x] == Coord(m.endRow, m.endCol);
          assert MovesFrom(p.value, i, j, ts)[x] == m;
        }
      } else if InBounds(m.startRow, m.startCol) && Idx(m.startRow, m.startCol) == k {
        IdxInjective(m.startRow, m.startCol, i, j);
      }
    }
  }

  /** The moves of `getAllMoves(board, color)` are exactly the moves, from its own tile, of
      a piece of `color` to one of the targets its `getValidMoves` gives. */
  lemma AllMovesMembers(cells: Cells, color: Color, m: Move)
    ensures m in AllMoves(cells, color) <==>
              InBounds(m.startRow, m.startCol) && PieceAt(cells, m.startRow, m.startCol) == Some(m.piece)
              && m.piece.color == color && Coord(m.endRow, m.endCol) in MovesOf(cells, m.piece)
  {
    AllMovesUpToMembers(cells, color, 64, m);
  }

  /** No piece of `color` has a move. */
  ghost predicate Stuck(cells: Cells, color: Color) {
    forall i, j :: InBounds(i, j) && HasColor(cells, i, j, color) ==> MovesOf(cells, PieceAt(cells, i, j).value) == []
  }

  /** `getAllMoves` is empty exactly when no piece of that colour has a move. */
  lemma NoMovesMeaning(cells: Cells, color: Color)
    ensures AllMoves(cells, color) == [] <==> Stuck(cells, color)
  {
    if AllMoves(cells, color) != [] {
      var m := AllMoves(cells, color)[0];
      AllMovesMembers(cells, color, m);
    }
    if !Stuck(cells, color) {
      var i, j :| InBounds(i, j) && HasColor(cells, i, j, color) && MovesOf(cells, PieceAt(cells, i, j).value) != [];
      var p := PieceAt(cells, i, j).value;
      var t := MovesOf(cells, p)[0];
      AllMovesMembers(cells, color, Move(p, i, j, t.row, t.col));
    }
  }

  // ---------------------------------------------------------------- isCheckmate / isStalemate

  /** `isCheckmate(color)`: throws without a king of that colour (`king.tile` of
      `undefined`); otherwise the king is in check and `getAllMoves` is empty. */
  ghost function Checkmate(cells: Cells, color: Color): Fallible<bool> {
    match FindKing(cells, color)
    case None => Crashed
    case Some(king) => Ok(InCheck(cells, king.row, king.col, color) && AllMoves(cells, color) == [])
  }

  /** `isStalemate(color)`: as `isCheckmate`, but with the king not in check. */
  ghost function Stalemate(cells: Cells, color: Color): Fallible<bool> {
    match FindKing(cells, color)
    case None => Crashed
    case Some(king) => Ok(!InCheck(cells, king.row, king.col, color) && AllMoves(cells, color) == [])
  }

  /** Checkmate: a king of that colour exists, is attacked, and no piece of that colour has
      any move; stalemate the same with the king not attacked; the two never both hold, and
      without a king both throw. */
  lemma MateMeaning(cells: Cells, color: Color)
    ensures Checkmate(cells, color) == Ok(true) <==>
              FindKing(cells, color).Some? && InCheck(cells, FindKing(cells, color).value.row, FindKing(cells, color).value.col, color)
              && Stuck(cells, color)
    ensures Stalemate(cells, color) == Ok(true) <==>
              FindKing(cells, color).Some? && !InCheck(cells, FindKing(cells, color).value.row, FindKing(cells, color).value.col, color)
              && Stuck(cells, color)
    ensures !(Checkmate(cells, color) == Ok(true) && Stalemate(cells, color) == Ok(true))
    ensures Checkmate(cells, color).Crashed? <==> Stalemate(cells, color).Crashed?
    ensures Checkmate(cells, color).Crashed? <==> forall k :: 0 <= k < 64 ==> !KingOf(cells[k], color)
  {
    NoMovesMeaning(cells, color);
  }

  // ---------------------------------------------------------------- isCheck, row-major

  /** No piece on the first n squares, in row-major order, attacks (r, c). */
  ghost predicate Unthreatened(cells: Cells, r: int, c: int, color: Color, n: int) {
    forall i, j :: InBounds(i, j) && Idx(i, j) < n ==> !AttackerAt(cells, i, j, r, c, color)
  }

  lemma UnthreatenedStep(cells: Cells, r: int, c: int, color: Color, i: int, j: int)
    requires InBounds(i, j) && Unthreatened(cells, r, c, color, Idx(i, j))
    requires !AttackerAt(cells, i, j, r, c, color)
    ensures Unthreatened(cells, r, c, color, Idx(i, j) + 1)
  {
    forall i', j' | InBounds(i', j') && Idx(i', j') < Idx(i, j) + 1
      ensures !AttackerAt(cells, i', j', r, c, color)
    {
      IdxInjective(i, j, i', j');
    }
  }

  // ---------------------------------------------------------------- the board object

  class Board {
    var cells: Cells
    var lastMove: Option<Move>

    /** `new Board()`: an empty grid, no last move, `setupPieces`. */
    constructor ()
      ensures cells == InitialCells() && lastMove == None
    {
      cells := seq(64, _ => EmptyTile);
      lastMove := None;
      new;
      SetupPieces();
      forall k | 0 <= k < 64
        ensures cells[k] == InitialCells()[k]
      {
        assert InBounds(k / 8, k % 8) && Idx(k / 8, k % 8) == k;
      }
    }

    /** `setupPieces`: the black back rank and pawns, then the white ones; each written tile
        gets a fresh piece of its home kind. */
    method SetupPieces()
      modifies this
      ensures lastMove == old(lastMove)
      ensures forall r, c :: InBounds(r, c) ==> cells[Idx(r, c)] == BoardObject.Homed(old(cells)[Idx(r, c)], r, c)
    {
      PlaceBackRank(0, Black);
      PlacePawns(1, Black);
      PlaceBackRank(7, White);
      PlacePawns(6, White);
    }

    /** The eight explicit writes of one back rank: rook, knight, bishop, queen, king,
        bishop, knight, rook. */
    method PlaceBackRank(r: int, color: Color)
      requires (r == 0 && color == Black) || (r == 7 && color == White)
      modifies this
      ensures lastMove == old(lastMove)
      ensures forall r', c :: InBounds(r', c) ==>
                cells[Idx(r', c)] == if r' == r then BoardObject.Homed(old(cells)[Idx(r', c)], r', c) else old(cells)[Idx(r', c)]
    {
      ghost var before := cells;
      PutPiece(r, 0, color, Rook);
      PutPiece(r, 1, color, Knight);
      PutPiece(r, 2, color, Bishop);
      PutPiece(r, 3, color, Queen);
      PutPiece(r, 4, color, King);
      PutPiece(r, 5, color, Bishop);
      PutPiece(r, 6, color, Knight);
      PutPiece(r, 7, color, Rook);
      forall r', c | InBounds(r', c)
        ensures cells[Idx(r', c)] == if r' == r then BoardObject.Homed(before[Idx(r', c)], r', c) else before[Idx(r', c)]
      {
        assert Idx(r', c) == 8 * r' + c;
      }
    }

    /** `this.grid[r][c].piece = new <Kind>(color, this.grid[r][c])` */
    method PutPiece(r: int, c: int, color: Color, kind: Kind)
      requires InBounds(r, c) && HomePiece(r, c) == Some((color, kind))
      modifies this
      ensures lastMove == old(lastMove)
      ensures cells == old(cells)[Idx(r, c) := BoardObject.Homed(old(cells)[Idx(r, c)], r, c)]
    {
      cells := cells[Idx(r, c) := Tile(Some(NewPiece(color, kind, r, c)), cells[Idx(r, c)].enPassant)];
    }

    /** The pawn loop of one side: a fresh pawn on every tile of row r. */
    method PlacePawns(r: int, color: Color)
      requires (r == 1 && color == Black) || (r == 6 && color == White)
      modifies this
      ensures lastMove == old(lastMove)
      ensures forall r', c :: InBounds(r', c) ==>
                cells[Idx(r', c)] == if r' == r then BoardObject.Homed(old(cells)[Idx(r', c)], r', c) else old(cells)[Idx(r', c)]
    {
      for i := 0 to 8
        invariant lastMove == old(lastMove)
        invariant forall r', c :: InBounds(r', c) ==>
                    cells[Idx(r', c)] == if r' == r && c < i then BoardObject.Homed(old(cells)[Idx(r', c)], r', c)
                                         else old(cells)[Idx(r', c)]
      {
        cells := SetPiece(cells, r, i, Some(NewPiece(color, Pawn, r, i)));
      }
    }

    /** `movePiece(move)`: returns whether it completed; when it does, the grid is
        `Moved(old grid, move)` and the move is remembered.  A throw leaves the object in a
        state the model does not describe. */
    method MovePiece(m: Move) returns (ok: bool)
      modifies this
      ensures ok == Moved(old(cells), m).Ok?
      ensures ok ==> cells == Moved(old(cells), m).value && lastMove == Some(m)
    {
      var startTile := GetTile(cells, m.startRow, m.startCol);
      var endTile := GetTile(cells, m.endRow, m.endCol);
      if startTile.None? || endTile.None? || startTile.value.piece.None? {
        return false;
      }
      var piece := startTile.value.piece.value;
      ghost var taken := cells;
      if piece.kind == Pawn && endTile.value.enPassant {
        cells := SetPiece(cells, m.startRow, m.endCol, None);
        taken := cells;
      }
      if piece.kind == King && Abs(m.endCol - m.startCol) == 2 {
        ok := MoveRook(m.startRow, m.endCol);
        if !ok {
          return;
        }
      }
      assert Moved(old(cells), m) == Ok(Landed(cells, piece, m));
      PlaceMover(piece, m);
      return true;
    }

    /** The rest of `movePiece`: the mover lands and learns its tile, its start empties, the
        flags are swept and a pawn's double step flags the square it passed. */
    method PlaceMover(piece: Piece, m: Move)
      requires InBounds(m.startRow, m.startCol) && InBounds(m.endRow, m.endCol)
      modifies this
      ensures cells == Landed(old(cells), piece, m) && lastMove == Some(m)
    {
      cells := SetPiece(cells, m.endRow, m.endCol, Some(piece.(row := m.endRow, col := m.endCol, firstMove := false)));
      cells := SetPiece(cells, m.startRow, m.startCol, None);
      ClearAllFlags();
      if piece.kind == Pawn && Abs(m.startRow - m.endRow) == 2 {
        cells := SetFlag(cells, (m.startRow + m.endRow) / 2, m.startCol);
      }
      lastMove := Some(m);
    }

    /** The castling branch of `movePiece`: kingside (target column 6) the rook of column 7
        goes to column 5, otherwise the rook of column 0 goes to column 3. */
    method MoveRook(row: int, endCol: int) returns (ok: bool)
      requires 0 <= row < 8
      modifies this
      ensures lastMove == old(lastMove)
      ensures ok == CastleRook(old(cells), row, endCol).Ok?
      ensures ok ==> cells == CastleRook(old(cells), row, endCol).value
    {
      if endCol == 6 {
        var rook := cells[Idx(row, 7)].piece;
        if rook.None? {
          return false;
        }
        cells := SetPiece(cells, row, 5, Some(rook.value.(row := row, col := 5)));
        cells := SetPiece(cells, row, 7, None);
      } else {
        var rook := cells[Idx(row, 0)].piece;
        if rook.None? {
          return false;
        }
        cells := SetPiece(cells, row, 3, Some(rook.value.(row := row, col := 3)));
        cells := SetPiece(cells, row, 0, None);
      }
      return true;
    }

    /** `this.grid.flat().forEach(t => t.enPassant = false)` */
    method ClearAllFlags()
      modifies this
      ensures lastMove == old(lastMove)
      ensures cells == ClearFlags(old(cells))
    {
      for k := 0 to 64
        invariant lastMove == old(lastMove)
        invariant forall n :: 0 <= n < k ==> cells[n] == Tile(old(cells)[n].piece, false)
        invariant forall n :: k <= n < 64 ==> cells[n] == old(cells)[n]
      {
        cells := cells[k := Tile(cells[k].piece, false)];
      }
    }

    /** `getKing(color)`: the first king of that colour on the flattened grid, if any. */
    method GetKing(color: Color) returns (king: Option<Piece>)
      ensures king == FindKing(cells, color)
    {
      for k := 0 to 64
        invariant FindKingFrom(cells, color, k) == FindKing(cells, color)
      {
        BoardObject.FindKingStep(cells, color, k);
        var piece := cells[k].piece;
        if piece.Some? && piece.value.kind == King && piece.value.color == color {
          return piece;
        }
      }
      return None;
    }

    /** `getAttackMoves(board)` of every piece class. */
    method GetAttackMoves(p: Piece) returns (moves: seq<Coord>)
      requires InBounds(p.row, p.col)
      ensures moves == AttackMoves(cells, p)
    {
      AllDirsAreDirections();
      match p.kind
      case Pawn => moves := GetPawnMoves(cells, p);
      case Rook => moves := SlideMoves(cells, p.row, p.col, p.color, StraightDirs);
      case Bishop => moves := SlideMoves(cells, p.row, p.col, p.color, DiagonalDirs);
      case Queen => moves := SlideMoves(cells, p.row, p.col, p.color, AllDirs);
      case Knight => moves := JumpMoves(cells, p.row, p.col, p.color, KnightDeltas);
      case King => moves := JumpMoves(cells, p.row, p.col, p.color, AllDirs);
    }

    /** `getValidMoves(board)` of every piece class: the king adds its castling squares when
        it has not moved and is not in check; every other piece moves as it attacks. */
    method GetValidMoves(p: Piece) returns (moves: seq<Coord>)
      requires Valid(cells) && InBounds(p.row, p.col)
      ensures moves == MovesOf(cells, p)
    {
      if p.kind == King {
        AllDirsAreDirections();
        moves := JumpMoves(cells, p.row, p.col, p.color, AllDirs);
        if p.firstMove {
          var check := IsCheck(p.row, p.col, p.color);
          if !check {
            var castles := CastleMoves(p);
            moves := moves + castles;
          }
        }
      } else {
        moves := GetAttackMoves(p);
      }
    }

    /** The castling part of `King.getValidMoves`: kingside first, then queenside. */
    method CastleMoves(p: Piece) returns (moves: seq<Coord>)
      requires InBounds(p.row, p.col)
      ensures moves == Castles(cells, p)
    {
      moves := [];
      var rookTile := GetTile(cells, p.row, 7);
      if rookTile.Some? && rookTile.value.piece.Some? && rookTile.value.piece.value.kind == Rook
         && rookTile.value.piece.value.firstMove {
        if GetTile(cells, p.row, 5).value.piece.None? && GetTile(cells, p.row, 6).value.piece.None? {
          moves := moves + [Coord(p.row, p.col + 2)];
        }
      }
      var rookTile2 := GetTile(cells, p.row, 0);
      if rookTile2.Some? && rookTile2.value.piece.Some? && rookTile2.value.piece.value.kind == Rook
         && rookTile2.value.piece.value.firstMove {
        if GetTile(cells, p.row, 1).value.piece.None? && GetTile(cells, p.row, 2).value.piece.None?
           && GetTile(cells, p.row, 3).value.piece.None? {
          moves := moves + [Coord(p.row, p.col - 2)];
        }
      }
    }

    /** `isCheck(r, c, color)`: whether some piece of the other colour attacks (r, c), the
        grid read in row-major order. */
    method IsCheck(r: int, c: int, color: Color) returns (check: bool)
      requires Valid(cells)
      ensures check == InCheck(cells, r, c, color)
    {
      var opp := if color == White then Black else White;
      for i := 0 to 8
        invariant Unthreatened(cells, r, c, color, 8 * i)
      {
        for j := 0 to 8
          invariant Unthreatened(cells, r, c, color, 8 * i + j)
        {
          var p := GetTile(cells, i, j).value.piece;
          if p.Some? && p.value.color == opp {
            var moves := GetAttackMoves(p.value);
            if Coord(r, c) in moves {
              assert AttackerAt(cells, i, j, r, c, color);
              return true;
            }
          }
          UnthreatenedStep(cells, r, c, color, i, j);
        }
      }
      return false;
    }

    /** `isCheckmate(color)`: `Checkmate` of the grid. */
    method IsCheckmate(color: Color) returns (res: Fallible<bool>)
      requires Valid(cells)
      ensures res == Checkmate(cells, color)
    {
      var king := GetKing(color);
      if king.None? {
        return Crashed;
      }
      var check := IsCheck(king.value.row, king.value.col, color);
      if !check {
        return Ok(false);
      }
      var all := GetAllMoves(this, color);
      return Ok(|all| == 0);
    }

    /** `isStalemate(color)`: `Stalemate` of the grid. */
    method IsStalemate(color: Color) returns (res: Fallible<bool>)
      requires Valid(cells)
      ensures res == Stalemate(cells, color)
    {
      var king := GetKing(color);
      if king.None? {
        return Crashed;
      }
      var check := IsCheck(king.value.row, king.value.col, color);
      if check {
        return Ok(false);
      }
      var all := GetAllMoves(this, color);
      return Ok(|all| == 0);
    }
  }

  /** `ai.getAllMoves(board, color)`: the two loops over the grid and, for each piece of
      `color`, the loop over its valid moves. */
  method GetAllMoves(board: Board, color: Color) returns (all: seq<Move>)
    requires Valid(board.cells)
    ensures all == AllMoves(board.cells, color)
  {
    all := [];
    for i := 0 to 8
      invariant all == AllMovesUpTo(board.cells, color, 8 * i)
    {
      for j := 0 to 8
        invariant all == AllMovesUpTo(board.cells, color, 8 * i + j)
      {
        var found := MovesAt(board, color, i, j);
        all := all + found;
      }
    }
  }

  /** The moves the loops of `getAllMoves` push for square (i, j). */
  method MovesAt(board: Board, color: Color, i: int, j: int) returns (found: seq<Move>)
    requires Valid(board.cells) && InBounds(i, j)
    ensures found == SquareMoves(board.cells, color, 8 * i + j)
  {
    assert Idx(i, j) == 8 * i + j && (8 * i + j) / 8 == i && (8 * i + j) % 8 == j;
    found := [];
    var p := GetTile(board.cells, i, j).value.piece;
    if p.Some? && p.value.color == color {
      var moves := board.GetValidMoves(p.value);
      found := PushMoves(found, p.value, i, j, moves);
    }
  }

  /** `for (const [r, c] of moves) all.push({piece: p, startRow: i, ...})` */
  method PushMoves(all: seq<Move>, p: Piece, i: int, j: int, ts: seq<Coord>) returns (res: seq<Move>)
    ensures res == all + MovesFrom(p, i, j, ts)
  {
    res := all;
    for n := 0 to |ts|
      invariant res == all + MovesFrom(p, i, j, ts[..n])
    {
      assert MovesFrom(p, i, j, ts[..n + 1]) == MovesFrom(p, i, j, ts[..n]) + [Move(p, i, j, ts[n].row, ts[n].col)];
      res := res + [Move(p, i, j, ts[n].row, ts[n].col)];
    }
    assert ts[..|ts|] == ts;
  }
}
