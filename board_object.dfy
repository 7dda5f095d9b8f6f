/**
  The `Board` object of the main engine: a grid of tiles and the last move, updated in place
  by `setupPieces`, `movePiece` and `unmakeMove` and read by `getKing`, `isCheck` and the
  piece generators.  Every method is proved to follow the function of the same operation in
  `ChessBoard`, `PieceRules` and `BoardStatus`, whose properties are proved there.
 */
module BoardObject {
  import opened ChessTypes
  import opened MoveTables
  import opened PieceRules
  import opened ChessBoard
  import opened BoardStatus

  /** A tile after `setupPieces` wrote its home piece on it (the flag is left alone). */
  function Homed(t: Tile, r: int, c: int): Tile
    requires InBounds(r, c)
  {
    if HomePiece(r, c).Some? then Tile(Some(NewPiece(HomePiece(r, c).value.0, HomePiece(r, c).value.1, r, c)), t.enPassant)
    else t
  }

  /** `Pawn.getAttackMoves`: the two forward diagonals, kept when on the board. */
  method PawnAttackMoves(r: int, c: int, color: Color) returns (moves: seq<Coord>)
    ensures moves == PawnAttacks(r, c, color)
  {
    moves := [];
    var direction := if color == White then -1 else 1;
    var attackMoves := [Coord(r + direction, c - 1), Coord(r + direction, c + 1)];
    for k := 0 to 2
      invariant moves == (if k >= 1 && InBounds(r + direction, c - 1) then [attackMoves[0]] else []) +
                         (if k >= 2 && InBounds(r + direction, c + 1) then [attackMoves[1]] else [])
    {
      var move := attackMoves[k];
      if move.row >= 0 && move.row < 8 && move.col >= 0 && move.col < 8 {
        moves := moves + [move];
      }
    }
  }

  lemma FindKingStep(cells: Cells, color: Color, k: nat)
    requires k < 64
    ensures FindKingFrom(cells, color, k) == if KingOf(cells[k], color) then cells[k].piece else FindKingFrom(cells, color, k + 1)
  {
  }

  /** The inner loop of `getKing` over row i: the first king of `color` there, if any. */
  method RowKing(grid: Cells, color: Color, i: int) returns (king: Option<Piece>)
    requires 0 <= i < 8
    ensures king.Some? ==> king == FindKingFrom(grid, color, 8 * i)
    ensures king.None? ==> FindKingFrom(grid, color, 8 * i) == FindKingFrom(grid, color, 8 * (i + 1))
  {
    for j := 0 to 8
      invariant FindKingFrom(grid, color, 8 * i + j) == FindKingFrom(grid, color, 8 * i)
    {
      ghost var k := 8 * i + j;
      assert Idx(i, j) == k;
      var piece := grid[Idx(i, j)].piece;
      FindKingStep(grid, color, k);
      if piece.Some? && piece.value.kind == King && piece.value.color == color {
        return piece;
      }
    }
    assert 8 * i + 8 == 8 * (i + 1);
    return None;
  }

  /** No piece on the first n squares, in row-major order, attacks (r, c). */
  ghost predicate NoAttackerBefore(cells: Cells, r: int, c: int, color: Color, n: int) {
    forall k :: 0 <= k < n && k < 64 ==> !AttackerAt(cells, k / 8, k % 8, r, c, color)
  }

  lemma NoAttackerStep(cells: Cells, r: int, c: int, color: Color, i: int, j: int)
    requires InBounds(i, j) && NoAttackerBefore(cells, r, c, color, 8 * i + j)
    requires !AttackerAt(cells, i, j, r, c, color)
    ensures NoAttackerBefore(cells, r, c, color, 8 * i + j + 1)
  {
    forall k | 0 <= k < 8 * i + j + 1 && k < 64
      ensures !AttackerAt(cells, k / 8, k % 8, r, c, color)
    {
      if k == 8 * i + j {
        assert k / 8 == i && k % 8 == j;
      }
    }
  }

  lemma NoAttackerAll(cells: Cells, r: int, c: int, color: Color)
    requires NoAttackerBefore(cells, r, c, color, 64)
    ensures !Attacked(cells, r, c, color)
  {
    forall i, j | InBounds(i, j)
      ensures !AttackerAt(cells, i, j, r, c, color)
    {
      assert (8 * i + j) / 8 == i && (8 * i + j) % 8 == j;
    }
  }

  /** One turn of the `.filter` over the king's steps keeps the filtered prefix in step. */
  lemma KeepStep(cells: Cells, ts: seq<Coord>, k: int, color: Color, moves: seq<Coord>, check: bool)
    requires 0 <= k < |ts| && check == Attacked(cells, ts[k].row, ts[k].col, color)
    requires moves + Unattacked(cells, ts[k..], color) == Unattacked(cells, ts, color)
    ensures (if check then moves else moves + [ts[k]]) + Unattacked(cells, ts[k + 1..], color) == Unattacked(cells, ts, color)
  {
    var rest := ts[k..];
    var tail := Unattacked(cells, ts[k + 1..], color);
    assert rest[0] == ts[k] && rest[1..] == ts[k + 1..];
    assert Unattacked(cells, rest, color) == (if check then [] else [ts[k]]) + tail;
    if check {
      assert [] + tail == tail;
    } else {
      AppendAssoc(moves, [ts[k]], tail);
    }
  }

  class Board {
    var cells: Cells
    var lastMove: Option<MoveReq>

    /** The state as a `Position` value. */
    ghost function Pos(): Position
      reads this
    {
      Position(cells, lastMove)
    }

    /** `new Board()`: an empty grid, `setupPieces`, no last move. */
    constructor ()
      ensures cells == InitialCells() && lastMove == None
    {
      cells := seq(64, _ => EmptyTile);
      new;
      SetupPieces();
      lastMove := None;
      forall k | 0 <= k < 64
        ensures cells[k] == InitialCells()[k]
      {
        assert InBounds(k / 8, k % 8) && Idx(k / 8, k % 8) == k;
      }
    }

    /** `setupPieces`: the black back rank and pawns, then the white ones. */
    method SetupPieces()
      modifies this
      ensures lastMove == old(lastMove)
      ensures forall r, c :: InBounds(r, c) ==> cells[Idx(r, c)] == Homed(old(cells)[Idx(r, c)], r, c)
    {
      PlaceRow(0);
      PlaceRow(1);
      PlaceRow(7);
      PlaceRow(6);
    }

    /** The writes of `setupPieces` on row r: the eight back-rank pieces of rows 0 and 7, or the
        loop placing the pawns of rows 1 and 6. */
    method PlaceRow(r: int)
      requires 0 <= r < 8
      modifies this
      ensures lastMove == old(lastMove)
      ensures forall r', c :: InBounds(r', c) ==>
                cells[Idx(r', c)] == if r' == r then Homed(old(cells)[Idx(r', c)], r', c) else old(cells)[Idx(r', c)]
    {
      for c := 0 to 8
        invariant lastMove == old(lastMove)
        invariant forall r', c' :: InBounds(r', c') ==>
                    cells[Idx(r', c')] == if r' == r && c' < c then Homed(old(cells)[Idx(r', c')], r', c')
                                          else old(cells)[Idx(r', c')]
      {
        if HomePiece(r, c).Some? {
          var home := HomePiece(r, c).value;
          cells := SetPiece(cells, r, c, Some(NewPiece(home.0, home.1, r, c)));
        }
      }
    }

    /** `getKing(color)`: the first king of that colour in row-major order, or `undefined`. */
    method GetKing(color: Color) returns (king: Option<Piece>)
      ensures king == FindKing(cells, color)
    {
      var grid := cells;
      for i := 0 to 8
        invariant FindKingFrom(grid, color, 8 * i) == FindKing(grid, color)
      {
        king := RowKing(grid, color, i);
        if king.Some? {
          return;
        }
      }
      return None;
    }

    /** `getValidMoves` of a knight, bishop, rook or queen, which is also its `getAttackMoves`:
        a lookup in the tables, filtered or cut at the first occupied square. */
    method PieceMovesAt(p: Piece, vm: ValidMoves) returns (moves: seq<Coord>)
      requires vm.Precomputed() && InBounds(p.row, p.col) && p.kind != Pawn && p.kind != King
      ensures moves == PieceMoves(cells, p.row, p.col, p) == AttackSet(cells, p.row, p.col, p)
    {
      vm.Entry(p.row, p.col);
      match p.kind
      case Knight =>
        moves := vm.GetKnightMoves(p.row, p.col, p.color, cells);
      case Bishop =>
        moves := GetSlidingMoves(cells, p.color, vm.bishopMoves[p.row][p.col]);
      case Rook =>
        moves := GetSlidingMoves(cells, p.color, vm.rookMoves[p.row][p.col]);
      case Queen =>
        var rookMoves := GetSlidingMoves(cells, p.color, vm.rookMoves[p.row][p.col]);
        var bishopMoves := GetSlidingMoves(cells, p.color, vm.bishopMoves[p.row][p.col]);
        moves := rookMoves + bishopMoves;
    }

    /** The squares `isCheck` tests for the piece found on (i, j): the king table entry for a
        king, otherwise the piece's `getAttackMoves`. */
    method AttackMoves(p: Piece, i: int, j: int, vm: ValidMoves) returns (moves: seq<Coord>)
      requires vm.Precomputed() && InBounds(i, j) && p.row == i && p.col == j
      ensures moves == AttackSet(cells, i, j, p)
    {
      if p.kind == King {
        moves := KingEntryAt(p, i, j, vm);
        AttackSetKing(cells, i, j, p);
      } else if p.kind == Pawn {
        moves := PawnAttackMoves(p.row, p.col, p.color);
        assert AttackSet(cells, i, j, p) == PawnAttacks(i, j, p.color);
      } else {
        moves := PieceMovesAt(p, vm);
      }
    }

    /** The king case of `isCheck`: the raw table entry, unfiltered. */
    method KingEntryAt(p: Piece, i: int, j: int, vm: ValidMoves) returns (moves: seq<Coord>)
      requires vm.Precomputed() && InBounds(i, j) && p.kind == King
      ensures moves == KingTargets(i, j)
    {
      vm.KingEntry(i, j);
      moves := vm.kingMoves[i][j];
    }

    /** `isCheck(kingRow, kingCol, kingColor)`: walks the grid and answers true at the first
        piece of the other colour whose attack squares contain (kingRow, kingCol). */
    method IsCheck(kingRow: int, kingCol: int, kingColor: Color, vm: ValidMoves) returns (check: bool)
      requires Valid(cells) && vm.Precomputed()
      ensures check == Attacked(cells, kingRow, kingCol, kingColor)
    {
      var opponentColor := if kingColor == White then Black else White;
      var grid := cells;
      for i := 0 to 8
        invariant NoAttackerBefore(grid, kingRow, kingCol, kingColor, 8 * i)
      {
        for j := 0 to 8
          invariant NoAttackerBefore(grid, kingRow, kingCol, kingColor, 8 * i + j)
        {
          var piece := grid[Idx(i, j)].piece;
          if piece.Some? && piece.value.color == opponentColor {
            var moves := AttackMoves(piece.value, i, j, vm);
            if Coord(kingRow, kingCol) in moves {
              assert AttackerAt(grid, i, j, kingRow, kingCol, kingColor);
              return true;
            }
          }
          NoAttackerStep(grid, kingRow, kingCol, kingColor, i, j);
        }
      }
      NoAttackerAll(grid, kingRow, kingCol, kingColor);
      return false;
    }

    // ------------------------------------------------------------ generators

    /** The forward part of `Pawn.getValidMoves`. */
    method PawnPushMoves(p: Piece) returns (moves: seq<Coord>)
      requires InBounds(p.row, p.col)
      ensures moves == PawnPushes(cells, p)
    {
      moves := [];
      var direction := if p.color == White then -1 else 1;
      var oneStep := Coord(p.row + direction, p.col);
      var oneStepTile := GetTile(cells, oneStep.row, oneStep.col);
      if oneStepTile.Some? && oneStepTile.value.piece.None? {
        moves := moves + [oneStep];
      }
      if p.firstMove {
        var twoSteps := Coord(p.row + 2 * direction, p.col);
        var twoStepsTile := GetTile(cells, twoSteps.row, twoSteps.col);
        if twoStepsTile.Some? && twoStepsTile.value.piece.None? && oneStepTile.value.piece.None? {
          moves := moves + [twoSteps];
        }
      }
    }

    /** The capture part of `Pawn.getValidMoves`: the attack squares holding the other colour. */
    method PawnCaptureMoves(p: Piece) returns (moves: seq<Coord>)
      ensures moves == Captures(cells, PawnAttacks(p.row, p.col, p.color), p.color)
    {
      var captureMoves := PawnAttackMoves(p.row, p.col, p.color);
      moves := [];
      for k := 0 to |captureMoves|
        invariant AllInBounds(captureMoves[k..])
        invariant moves + Captures(cells, captureMoves[k..], p.color) == Captures(cells, captureMoves, p.color)
      {
        ghost var before := moves;
        ghost var rest := captureMoves[k..];
        assert rest[1..] == captureMoves[k + 1..];
        CapturesHead(cells, rest, p.color);
        var move := captureMoves[k];
        var tile := GetTile(cells, move.row, move.col);
        ghost var head: seq<Coord> := [];
        if tile.Some? && tile.value.piece.Some? && tile.value.piece.value.color != p.color {
          moves := moves + [move];
          head := [move];
        }
        assert Captures(cells, rest, p.color) == head + Captures(cells, captureMoves[k + 1..], p.color);
        AppendAssoc(before, head, Captures(cells, captureMoves[k + 1..], p.color));
      }
    }

    /** One iteration of the en-passant `forEach` of `Pawn.getValidMoves`, for the neighbour
        on column `col + dc`: offer and flag the square behind it. */
    method EnPassantMove(p: Piece, dc: int) returns (moves: seq<Coord>)
      modifies this
      ensures moves == OptionList(EnPassantTarget(old(Pos()), p, dc))
      ensures cells == FlagTarget(old(cells), EnPassantTarget(old(Pos()), p, dc))
      ensures lastMove == old(lastMove)
    {
      var grid := cells;
      var found := EnPassantTarget(Position(grid, lastMove), p, dc);
      if found.Some? && InBounds(found.value.row, found.value.col) {
        moves := [found.value];
        cells := SetFlag(grid, found.value.row, found.value.col);
      } else {
        moves := [];
      }
    }

    /** `Pawn.getValidMoves(board)`: pushes, captures, then en passant to the left and to the
        right, flagging each en-passant target offered. */
    method GetPawnMoves(p: Piece) returns (moves: seq<Coord>)
      requires InBounds(p.row, p.col)
      modifies this
      ensures Generated(moves, cells) == PawnValidMoves(old(Pos()), p)
      ensures lastMove == old(lastMove)
    {
      ghost var pos := Pos();
      var pushes := PawnPushMoves(p);
      var captures := PawnCaptureMoves(p);
      var left := EnPassantMove(p, -1);
      EnPassantSame(pos, Pos(), p, 1);
      var right := EnPassantMove(p, 1);
      moves := pushes + captures + left + right;
    }

    /** The step part of `King.getValidMoves`: the table entry without own-colour squares,
        filtered by `isCheck`. */
    method KingStepMoves(p: Piece, vm: ValidMoves) returns (moves: seq<Coord>)
      requires Valid(cells) && vm.Precomputed() && InBounds(p.row, p.col)
      ensures moves == Unattacked(cells, KingMoves(cells, p.row, p.col, p.color), p.color)
    {
      var grid := cells;
      var steps := vm.GetKingMoves(p.row, p.col, p.color, grid);
      ghost var goal := Unattacked(grid, steps, p.color);
      moves := [];
      assert steps[0..] == steps;
      for k := 0 to |steps|
        invariant cells == grid
        invariant moves + Unattacked(grid, steps[k..], p.color) == goal
      {
        var check := IsCheck(steps[k].row, steps[k].col, p.color, vm);
        KeepStep(grid, steps, k, p.color, moves, check);
        if !check {
          moves := moves + [steps[k]];
        }
      }
      assert steps[|steps|..] == [];
      assert moves + [] == moves;
    }

    /** The kingside test of `King.getValidMoves`. */
    method KingsideOpen(p: Piece, vm: ValidMoves) returns (open: bool)
      requires Valid(cells) && vm.Precomputed() && InBounds(p.row, p.col)
      ensures open == CanCastleKingside(cells, p)
    {
      open := false;
      var kingsideRook := cells[Idx(p.row, 7)].piece;
      if kingsideRook.Some? && kingsideRook.value.firstMove {
        if cells[Idx(p.row, 5)].piece.None? && cells[Idx(p.row, 6)].piece.None? {
          var check5 := IsCheck(p.row, 5, p.color, vm);
          if !check5 {
            var check6 := IsCheck(p.row, 6, p.color, vm);
            open := !check6;
          }
        }
      }
    }

    /** The queenside test of `King.getValidMoves`. */
    method QueensideOpen(p: Piece, vm: ValidMoves) returns (open: bool)
      requires Valid(cells) && vm.Precomputed() && InBounds(p.row, p.col)
      ensures open == CanCastleQueenside(cells, p)
    {
      open := false;
      var queensideRook := cells[Idx(p.row, 0)].piece;
      if queensideRook.Some? && queensideRook.value.firstMove {
        if cells[Idx(p.row, 1)].piece.None? && cells[Idx(p.row, 2)].piece.None? && cells[Idx(p.row, 3)].piece.None? {
          var check2 := IsCheck(p.row, 2, p.color, vm);
          if !check2 {
            var check3 := IsCheck(p.row, 3, p.color, vm);
            open := !check3;
          }
        }
      }
    }

    /** `King.getValidMoves(board)`: the safe steps, then castling for an unmoved king that is
        not in check. */
    method GetKingMoves(p: Piece, vm: ValidMoves) returns (moves: seq<Coord>)
      requires Valid(cells) && vm.Precomputed() && InBounds(p.row, p.col)
      ensures moves == KingValidMoves(cells, p)
    {
      moves := KingStepMoves(p, vm);
      var castles := CastlingMoves(p, vm);
      moves := moves + castles;
    }

    /** The castling part of `King.getValidMoves`: tried only for an unmoved king that is not
        in check; kingside first. */
    method CastlingMoves(p: Piece, vm: ValidMoves) returns (moves: seq<Coord>)
      requires Valid(cells) && vm.Precomputed() && InBounds(p.row, p.col)
      ensures moves == Castlings(cells, p)
    {
      moves := [];
      if p.firstMove {
        var inCheck := IsCheck(p.row, p.col, p.color, vm);
        if !inCheck {
          var kingside := KingsideOpen(p, vm);
          if kingside {
            moves := moves + [Coord(p.row, 6)];
          }
          var queenside := QueensideOpen(p, vm);
          if queenside {
            moves := moves + [Coord(p.row, 2)];
          }
        }
      }
    }

    /** `piece.getValidMoves(board)` for any piece; only a pawn's changes the grid. */
    method GetValidMoves(p: Piece, vm: ValidMoves) returns (moves: seq<Coord>)
      requires Valid(cells) && vm.Precomputed() && InBounds(p.row, p.col)
      modifies this
      ensures Generated(moves, cells) == ValidMovesOf(old(Pos()), p)
      ensures lastMove == old(lastMove)
    {
      match p.kind
      case Pawn =>
        moves := GetPawnMoves(p);
      case King =>
        moves := GetKingMoves(p, vm);
      case _ =>
        moves := PieceMovesAt(p, vm);
    }

    // ------------------------------------------------------------ movePiece / unmakeMove

    /** `movePiece(move)`: the record for `unmakeMove`, or `Crashed` where the source throws. */
    method MovePiece(m: MoveReq) returns (res: Fallible<Undo>)
      requires Valid(cells)
      modifies this
      ensures MakeMove(old(Pos()), m).Crashed? ==> res.Crashed?
      ensures MakeMove(old(Pos()), m).Ok? ==>
                res == Ok(MakeMove(old(Pos()), m).value.undo) && Pos() == MakeMove(old(Pos()), m).value.pos
      decreases CastleRank(cells, m)
    {
      if !InBounds(m.startRow, m.startCol) || !InBounds(m.endRow, m.endCol) {
        return Crashed;
      }
      var piece := cells[Idx(m.startRow, m.startCol)].piece;
      var capturedPiece := cells[Idx(m.endRow, m.endCol)].piece;
      if piece.None? {
        return Crashed;
      }
      var mover := piece.value;
      var wasFirstMove := mover.firstMove;
      var lastEnPassant := AnyFlag(cells);
      var enPassantCapture: Option<Piece> := None;
      if mover.kind == Pawn && cells[Idx(m.endRow, m.endCol)].enPassant {
        enPassantCapture := cells[Idx(m.startRow, m.endCol)].piece;
        cells := SetPiece(cells, m.startRow, m.endCol, None);
      }
      var castlingRookMove: Option<Undo> := None;
      if mover.kind == King {
        var dx := m.endCol - m.startCol;
        if Abs(dx) == 2 {
          var rook := if dx > 0 then cells[Idx(m.startRow, 7)].piece else cells[Idx(m.startRow, 0)].piece;
          var newRookCol := if dx > 0 then 5 else 3;
          if rook.None? {
            return Crashed;
          }
          var rookMade := MovePiece(MoveReq(None, rook.value.row, rook.value.col, m.startRow, newRookCol));
          if rookMade.Crashed? {
            return Crashed;
          }
          castlingRookMove := Some(rookMade.value);
        }
      }
      var undo := Undo(m, capturedPiece, wasFirstMove, lastEnPassant, enPassantCapture, castlingRookMove);
      LandPiece(m, mover, undo);
      res := Ok(undo);
    }

    /** The end of `movePiece`: place the piece, empty its start tile, record the move, clear
        every flag and flag the square a pawn's two-row advance passed. */
    method LandPiece(m: MoveReq, piece: Piece, ghost undo: Undo)
      requires InBounds(m.startRow, m.startCol) && InBounds(m.endRow, m.endCol)
      modifies this
      ensures Pos() == Land(old(cells), m, piece, undo).pos
    {
      var moved := piece.(row := m.endRow, col := m.endCol, firstMove := false);
      cells := SetPiece(cells, m.endRow, m.endCol, Some(moved));
      cells := SetPiece(cells, m.startRow, m.startCol, None);
      lastMove := Some(m);
      cells := ClearFlags(cells);
      if piece.kind == Pawn && Abs(m.startRow - m.endRow) == 2 {
        cells := SetFlag(cells, (m.startRow + m.endRow) / 2, m.startCol);
      }
    }

    /** `unmakeMove(record)`: false where the source throws.  The source's final search for a
        flagged tile runs after every flag was cleared and finds none, so it is left out. */
    method UnmakeMove(u: Undo) returns (ok: bool)
      modifies this
      ensures ok == Unmake(old(Pos()), u).Ok?
      ensures ok ==> Pos() == Unmake(old(Pos()), u).value
      decreases u
    {
      var m := u.move;
      if !InBounds(m.startRow, m.startCol) || !InBounds(m.endRow, m.endCol) {
        return false;
      }
      var piece := cells[Idx(m.endRow, m.endCol)].piece;
      if piece.None? {
        return false;
      }
      ghost var before := cells;
      var back := piece.value.(row := m.startRow, col := m.startCol, firstMove := u.wasFirstMove);
      cells := SetPiece(cells, m.startRow, m.startCol, Some(back));
      cells := SetPiece(cells, m.endRow, m.endCol, u.captured);
      if u.epCapture.Some? {
        cells := SetPiece(cells, m.startRow, m.endCol, u.epCapture);
      }
      assert cells == PutBack(before, u, piece.value);
      if u.rookUndo.Some? {
        var rookOk := UnmakeMove(u.rookUndo.value);
        if !rookOk {
          return false;
        }
      }
      cells := ClearFlags(cells);
      ok := true;
    }

    // ------------------------------------------------------------ isCheckmate / isStalemate

    /** `isCheckmate(kingColor)`: the answer, or `Crashed` where the source throws; the board is
        left as the walk leaves it. */
    method IsCheckmate(kingColor: Color, vm: ValidMoves) returns (res: Fallible<bool>)
      requires Valid(cells) && vm.Precomputed()
      modifies this
      ensures Checkmate(old(Pos()), kingColor).Crashed? ==> res.Crashed?
      ensures Checkmate(old(Pos()), kingColor).Ok? ==>
                res == Ok(Checkmate(old(Pos()), kingColor).value.holds) && Pos() == Checkmate(old(Pos()), kingColor).value.pos
    {
      ghost var verdict := Checkmate(Pos(), kingColor);
      var king := GetKing(kingColor);
      if king.None? {
        return Crashed;
      }
      var check := IsCheck(king.value.row, king.value.col, kingColor, vm);
      if !check {
        assert verdict == Ok(Verdict(false, Pos()));
        return Ok(false);
      }
      assert verdict == EscapeFrom(Pos(), kingColor, 0);
      res := AnyEscape(kingColor, vm);
    }

    /** The two loops of `isCheckmate` over the grid: false at the first move that leaves the
        king safe, true when none does. */
    method AnyEscape(kingColor: Color, vm: ValidMoves) returns (res: Fallible<bool>)
      requires Valid(cells) && vm.Precomputed()
      modifies this
      ensures var spec := EscapeFrom(old(Pos()), kingColor, 0);
              && (res.Crashed? ==> spec.Crashed?)
              && (res.Ok? ==> spec == Ok(Verdict(res.value, Pos())))
    {
      ghost var goal := EscapeFrom(Pos(), kingColor, 0);
      for i := 0 to 8
        invariant Valid(cells) && EscapeFrom(Pos(), kingColor, 8 * i) == goal
      {
        var escaped := RowEscapes(i, kingColor, vm);
        if escaped.Crashed? {
          return Crashed;
        }
        if escaped.value {
          assert goal == Ok(Verdict(false, Pos()));
          return Ok(false);
        }
      }
      assert goal == Ok(Verdict(true, Pos()));
      return Ok(true);
    }

    /** The inner loop of `isCheckmate` over row i. */
    method RowEscapes(i: int, kingColor: Color, vm: ValidMoves) returns (res: Fallible<bool>)
      requires 0 <= i < 8 && Valid(cells) && vm.Precomputed()
      modifies this
      ensures var spec := EscapeFrom(old(Pos()), kingColor, 8 * i);
              && (res.Crashed? ==> spec.Crashed?)
              && (res == Ok(true) ==> spec == Ok(Verdict(false, Pos())))
              && (res == Ok(false) ==> Valid(cells) && spec == EscapeFrom(Pos(), kingColor, 8 * (i + 1)))
    {
      ghost var goal := EscapeFrom(Pos(), kingColor, 8 * i);
      for j := 0 to 8
        invariant Valid(cells) && EscapeFrom(Pos(), kingColor, 8 * i + j) == goal
      {
        var escaped := SquareEscapes(i, j, kingColor, vm);
        if escaped.Crashed? {
          assert goal.Crashed?;
          return Crashed;
        }
        if escaped.value {
          assert goal == Ok(Verdict(false, Pos()));
          return Ok(true);
        }
      }
      assert 8 * i + 8 == 8 * (i + 1);
      return Ok(false);
    }

    /** The body of the loops of `isCheckmate` for square (i, j): when it holds a piece of the
        side, generate its moves and try them. */
    method SquareEscapes(i: int, j: int, kingColor: Color, vm: ValidMoves) returns (res: Fallible<bool>)
      requires InBounds(i, j) && Valid(cells) && vm.Precomputed()
      modifies this
      ensures var spec := EscapeFrom(old(Pos()), kingColor, 8 * i + j);
              && (res.Crashed? ==> spec.Crashed?)
              && (res == Ok(true) ==> spec == Ok(Verdict(false, Pos())))
              && (res == Ok(false) ==> Valid(cells) && spec == EscapeFrom(Pos(), kingColor, 8 * i + j + 1))
    {
      ghost var k := 8 * i + j;
      OwnPieceAtSquare(cells, i, j, kingColor);
      var piece := cells[Idx(i, j)].piece;
      if piece.Some? && piece.value.color == kingColor {
        ghost var pos := Pos();
        var moves := GetValidMoves(piece.value, vm);
        EscapeUnfold(pos, kingColor, k, piece.value, moves, Pos());
        res := TryMoves(i, j, moves, kingColor, vm);
      } else {
        EscapeSkip(Pos(), kingColor, k);
        res := Ok(false);
      }
    }

    /** The inner loop of `isCheckmate` over the moves of the piece on (i, j): true at the
        first move that leaves the king safe. */
    method TryMoves(i: int, j: int, moves: seq<Coord>, kingColor: Color, vm: ValidMoves) returns (res: Fallible<bool>)
      requires InBounds(i, j) && Valid(cells) && vm.Precomputed()
      modifies this
      ensures var spec := TryEscapes(old(Pos()), kingColor, 8 * i + j, moves, 0);
              && (res.Crashed? ==> spec.Crashed?)
              && (res == Ok(true) ==> spec == Ok(Verdict(false, Pos())))
              && (res == Ok(false) ==> Valid(cells) && spec == EscapeFrom(Pos(), kingColor, 8 * i + j + 1))
    {
      ghost var goal := TryEscapes(old(Pos()), kingColor, 8 * i + j, moves, 0);
      for n := 0 to |moves|
        invariant Valid(cells) && goal == TryEscapes(Pos(), kingColor, 8 * i + j, moves, n)
      {
        var outcome := TryTarget(i, j, moves, n, kingColor, vm);
        if outcome.Crashed? {
          return Crashed;
        }
        if outcome.value {
          return Ok(true);
        }
      }
      return Ok(false);
    }

    /** One pass of that loop, for `moves[n]`: make the move, find the king, test it, unmake;
        true when the king was safe. */
    method TryTarget(i: int, j: int, moves: seq<Coord>, n: nat, kingColor: Color, vm: ValidMoves) returns (outcome: Fallible<bool>)
      requires InBounds(i, j) && Valid(cells) && vm.Precomputed() && n < |moves|
      modifies this
      ensures var spec := TryEscapes(old(Pos()), kingColor, 8 * i + j, moves, n);
              && (outcome.Crashed? ==> spec.Crashed?)
              && (outcome == Ok(true) ==> spec == Ok(Verdict(false, Pos())))
              && (outcome == Ok(false) ==> Valid(cells) && spec == TryEscapes(Pos(), kingColor, 8 * i + j, moves, n + 1))
    {
      ghost var k := 8 * i + j;
      SquareIndex(i, j);
      ghost var pos := Pos();
      var m := MoveTo(None, i, j, moves[n]);
      var moveData := MovePiece(m);
      if moveData.Crashed? {
        TryCrashes(pos, kingColor, k, moves, n);
        return Crashed;
      }
      MakeMoveValid(pos, m);
      outcome := TestAndUnmake(pos, k, moves, n, moveData.value, kingColor, vm);
      ghost var spec := TryEscapes(pos, kingColor, k, moves, n);
      assert outcome == Ok(false) ==> Valid(cells) && spec == TryEscapes(Pos(), kingColor, k, moves, n + 1);
    }

    /** The rest of that pass, once `movePiece` has made move n of the piece on flat index k
        from `pos`, with undo record u: find the king, test it, unmake. */
    method TestAndUnmake(ghost pos: Position, ghost k: nat, ghost moves: seq<Coord>, ghost n: nat, u: Undo,
                         kingColor: Color, vm: ValidMoves) returns (outcome: Fallible<bool>)
      requires Valid(pos.cells) && k < 64 && n < |moves| && Valid(cells) && vm.Precomputed()
      requires MakeMove(pos, MoveTo(None, Row(k), Col(k), moves[n])) == Ok(Made(Pos(), u))
      modifies this
      ensures var spec := TryEscapes(pos, kingColor, k, moves, n);
              && (outcome.Crashed? ==> spec.Crashed?)
              && (outcome == Ok(true) ==> spec == Ok(Verdict(false, Pos())))
              && (outcome == Ok(false) ==> Valid(cells) && spec == TryEscapes(Pos(), kingColor, k, moves, n + 1))
    {
      ghost var made := Made(Pos(), u);
      var newKing := GetKing(kingColor);
      if newKing.None? {
        TryCrashes(pos, kingColor, k, moves, n);
        return Crashed;
      }
      var check := IsCheck(newKing.value.row, newKing.value.col, kingColor, vm);
      var undone := UnmakeMove(u);
      if !undone {
        TryCrashes(pos, kingColor, k, moves, n);
        return Crashed;
      }
      TryUnfold(pos, kingColor, k, moves, n, made, newKing.value, Pos());
      return Ok(!check);
    }

    /** `isStalemate(kingColor)`: the answer, or `Crashed` where the source throws; the board is
        left with the flags the generators set. */
    method IsStalemate(kingColor: Color, vm: ValidMoves) returns (res: Fallible<bool>)
      requires Valid(cells) && vm.Precomputed()
      modifies this
      ensures Stalemate(old(Pos()), kingColor).Crashed? ==> res.Crashed?
      ensures Stalemate(old(Pos()), kingColor).Ok? ==>
                res == Ok(Stalemate(old(Pos()), kingColor).value.holds) && Pos() == Stalemate(old(Pos()), kingColor).value.pos
    {
      ghost var verdict := Stalemate(Pos(), kingColor);
      var king := GetKing(kingColor);
      if king.None? {
        return Crashed;
      }
      var check := IsCheck(king.value.row, king.value.col, kingColor, vm);
      if check {
        assert verdict == Ok(Verdict(false, Pos()));
        return Ok(false);
      }
      assert verdict == Ok(MovelessFrom(Pos(), kingColor, 0));
      var found := AnyPieceMoves(kingColor, vm);
      return Ok(!found);
    }

    /** The two loops of `isStalemate` over the grid: whether some piece of the side has a
        move, stopping at the first one. */
    method AnyPieceMoves(kingColor: Color, vm: ValidMoves) returns (found: bool)
      requires Valid(cells) && vm.Precomputed()
      modifies this
      ensures MovelessFrom(old(Pos()), kingColor, 0) == Verdict(!found, Pos())
    {
      ghost var goal := MovelessFrom(Pos(), kingColor, 0);
      found := false;
      for i := 0 to 8
        invariant Valid(cells) && MovelessFrom(Pos(), kingColor, 8 * i) == goal
      {
        found := RowPieceMoves(i, kingColor, vm);
        if found {
          assert goal == Verdict(false, Pos());
          return;
        }
      }
      assert goal == Verdict(true, Pos());
    }

    /** The inner loop of `isStalemate` over row i. */
    method RowPieceMoves(i: int, kingColor: Color, vm: ValidMoves) returns (found: bool)
      requires 0 <= i < 8 && Valid(cells) && vm.Precomputed()
      modifies this
      ensures var spec := MovelessFrom(old(Pos()), kingColor, 8 * i);
              && (found ==> spec == Verdict(false, Pos()))
              && (!found ==> Valid(cells) && spec == MovelessFrom(Pos(), kingColor, 8 * (i + 1)))
    {
      ghost var goal := MovelessFrom(Pos(), kingColor, 8 * i);
      for j := 0 to 8
        invariant Valid(cells) && MovelessFrom(Pos(), kingColor, 8 * i + j) == goal
      {
        var moved := StalemateSquare(i, j, kingColor, vm);
        if moved {
          assert goal == Verdict(false, Pos());
          return true;
        }
      }
      assert 8 * i + 8 == 8 * (i + 1);
      return false;
    }

    /** The body of the loops of `isStalemate` for square (i, j): whether the piece of the
        side found there, if any, has a move; generating its moves may set flags. */
    method StalemateSquare(i: int, j: int, kingColor: Color, vm: ValidMoves) returns (found: bool)
      requires InBounds(i, j) && Valid(cells) && vm.Precomputed()
      modifies this
      ensures Valid(cells)
      ensures var spec := MovelessFrom(old(Pos()), kingColor, 8 * i + j);
              && (found ==> spec == Verdict(false, Pos()))
              && (!found ==> spec == MovelessFrom(Pos(), kingColor, 8 * i + j + 1))
    {
      ghost var k := 8 * i + j;
      OwnPieceAtSquare(cells, i, j, kingColor);
      var piece := cells[Idx(i, j)].piece;
      if piece.Some? && piece.value.color == kingColor {
        ghost var pos := Pos();
        var moves := GetValidMoves(piece.value, vm);
        MovelessUnfold(pos, kingColor, k, piece.value, moves, Pos());
        found := |moves| > 0;
      } else {
        MovelessSkip(Pos(), kingColor, k);
        found := false;
      }
    }
  }
}
