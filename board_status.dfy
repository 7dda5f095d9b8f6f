/**
  `isCheckmate` and `isStalemate` of the main engine, as functions of the position they start
  from.  Both walk the grid in row-major order and ask each piece of the side for its moves;
  a pawn's generator flags tiles and every trial move clears them, so each function also
  returns the position it leaves behind and the walk reads the grid as it is at each step.
 */
module BoardStatus {
  import opened ChessTypes
  import opened PieceRules
  import opened ChessBoard

  /** A verdict and the position left behind. */
  datatype Verdict = Verdict(holds: bool, pos: Position)

  function Row(k: int): int { k / 8 }
  function Col(k: int): int { k % 8 }

  /** The piece of `color` on flat index k, if any. */
  function OwnPieceAt(cells: Cells, k: int, color: Color): Option<Piece>
    requires 0 <= k < 64
  {
    if cells[k].piece.Some? && cells[k].piece.value.color == color then cells[k].piece else None
  }

  /** Square (i, j) and flat index 8i + j name each other. */
  lemma SquareIndex(i: int, j: int)
    requires InBounds(i, j)
    ensures Idx(i, j) == 8 * i + j && Row(8 * i + j) == i && Col(8 * i + j) == j
  {
  }

  /** The occupant of square (i, j) read through its flat index. */
  lemma OwnPieceAtSquare(cells: Cells, i: int, j: int, color: Color)
    requires InBounds(i, j)
    ensures Idx(i, j) == 8 * i + j && Row(8 * i + j) == i && Col(8 * i + j) == j
    ensures var q := cells[Idx(i, j)].piece;
            OwnPieceAt(cells, 8 * i + j, color) == if q.Some? && q.value.color == color then q else None
  {
    SquareIndex(i, j);
  }

  lemma OwnPieceHome(cells: Cells, k: int, color: Color)
    requires 0 <= k < 64 && Valid(cells) && OwnPieceAt(cells, k, color).Some?
    ensures InBounds(Row(k), Col(k)) && Idx(Row(k), Col(k)) == k
    ensures var p := OwnPieceAt(cells, k, color).value;
            p.row == Row(k) && p.col == Col(k) && PieceAt(cells, p.row, p.col) == Some(p)
  {
  }

  /** The generator's grid keeps every piece, so it stays consistent. */
  lemma GeneratedValid(pos: Position, p: Piece)
    requires Valid(pos.cells) && InBounds(p.row, p.col)
    ensures Valid(ValidMovesOf(pos, p).cells)
  {
    ValidMovesKeepPieces(pos, p);
    SamePiecesValid(pos.cells, ValidMovesOf(pos, p).cells);
  }

  // ---------------------------------------------------------------- isCheckmate

  /** `isCheckmate(color)`: throws without a king of that colour; false when the king is not
      attacked; otherwise tries every move of every piece of the side and is false as soon as
      one leaves that side's king unattacked. */
  ghost function Checkmate(pos: Position, color: Color): Fallible<Verdict>
    requires Valid(pos.cells)
  {
    match FindKing(pos.cells, color)
    case None => Crashed
    case Some(king) =>
      if !Attacked(pos.cells, king.row, king.col, color) then Ok(Verdict(false, pos))
      else EscapeFrom(pos, color, 0)
  }

  /** The walk of `isCheckmate` from flat index k on. */
  ghost function EscapeFrom(pos: Position, color: Color, k: nat): Fallible<Verdict>
    requires Valid(pos.cells) && k <= 64
    decreases 64 - k, 1, 0
  {
    if k == 64 then Ok(Verdict(true, pos))
    else match OwnPieceAt(pos.cells, k, color)
      case None => EscapeFrom(pos, color, k + 1)
      case Some(p) =>
        OwnPieceHome(pos.cells, k, color);
        var gen := ValidMovesOf(pos, p);
        GeneratedValid(pos, p);
        TryEscapes(Position(gen.cells, pos.lastMove), color, k, gen.moves, 0)
  }

  /** Trying the moves i, i+1, ... of the piece on flat index k: move, look for the king,
      test it, undo; stop with false at the first move after which the king is safe. */
  ghost function TryEscapes(pos: Position, color: Color, k: nat, moves: seq<Coord>, i: nat): Fallible<Verdict>
    requires Valid(pos.cells) && k < 64 && i <= |moves|
    decreases 64 - k, 0, |moves| - i
  {
    if i == |moves| then EscapeFrom(pos, color, k + 1)
    else
      var m := MoveTo(None, Row(k), Col(k), moves[i]);
      match MakeMove(pos, m)
      case Crashed => Crashed
      case Ok(made) =>
        match FindKing(made.pos.cells, color)
        case None => Crashed
        case Some(king) =>
          var safe := !Attacked(made.pos.cells, king.row, king.col, color);
          MakeMoveValid(pos, m);
          match Unmake(made.pos, made.undo)
          case Crashed => Crashed
          case Ok(back) =>
            UnmakeValid(made.pos, made.undo);
            if safe then Ok(Verdict(false, back)) else TryEscapes(back, color, k, moves, i + 1)
  }

  // ---------------------------------------------------------------- isStalemate

  /** `isStalemate(color)`: throws without a king of that colour; false when the king is
      attacked; otherwise false as soon as a piece of the side has a move. */
  ghost function Stalemate(pos: Position, color: Color): Fallible<Verdict>
    requires Valid(pos.cells)
  {
    match FindKing(pos.cells, color)
    case None => Crashed
    case Some(king) =>
      if Attacked(pos.cells, king.row, king.col, color) then Ok(Verdict(false, pos))
      else Ok(MovelessFrom(pos, color, 0))
  }

  /** The walk of `isStalemate` from flat index k on. */
  ghost function MovelessFrom(pos: Position, color: Color, k: nat): Verdict
    requires Valid(pos.cells) && k <= 64
    decreases 64 - k
  {
    if k == 64 then Verdict(true, pos)
    else match OwnPieceAt(pos.cells, k, color)
      case None => MovelessFrom(pos, color, k + 1)
      case Some(p) =>
        OwnPieceHome(pos.cells, k, color);
        var gen := ValidMovesOf(pos, p);
        GeneratedValid(pos, p);
        if |gen.moves| > 0 then Verdict(false, Position(gen.cells, pos.lastMove))
        else MovelessFrom(Position(gen.cells, pos.lastMove), color, k + 1)
  }

  // ---------------------------------------------------------------- the pieces come back

  lemma SameHome(a: Cells, b: Cells)
    requires SamePieces(a, b) && Valid(a) && KingsHome(a)
    ensures Valid(b) && KingsHome(b)
  {
    forall r, c | InBounds(r, c)
      ensures PieceAt(b, r, c) == PieceAt(a, r, c) && Agrees(b[Idx(r, c)], r, c)
    {
    }
  }

  lemma PlayableSame(a: Cells, b: Cells, m: MoveReq)
    requires SamePieces(a, b)
    ensures Playable(a, m) == Playable(b, m)
  {
    if InBounds(m.startRow, m.startCol) {
      assert PieceAt(a, m.startRow, m.startCol) == PieceAt(b, m.startRow, m.startCol);
      if InBounds(m.startRow, CornerCol(m)) {
        assert PieceAt(a, m.startRow, CornerCol(m)) == PieceAt(b, m.startRow, CornerCol(m));
      }
    }
  }

  /** On a consistent board whose unmoved pieces are at home, `isCheckmate` puts back every
      piece it moves: when it returns, the pieces stand where they stood. */
  lemma CheckmateKeepsPieces(pos: Position, color: Color)
    requires Valid(pos.cells) && KingsHome(pos.cells)
    ensures Checkmate(pos, color).Ok? ==> SamePieces(Checkmate(pos, color).value.pos.cells, pos.cells)
  {
    if FindKing(pos.cells, color).Some? {
      EscapeKeepsPieces(pos, color, 0, pos.cells);
    }
  }

  lemma {:induction false} EscapeKeepsPieces(pos: Position, color: Color, k: nat, orig: Cells)
    requires Valid(pos.cells) && k <= 64
    requires SamePieces(pos.cells, orig) && Valid(orig) && KingsHome(orig)
    ensures EscapeFrom(pos, color, k).Ok? ==> SamePieces(EscapeFrom(pos, color, k).value.pos.cells, orig)
    decreases 64 - k, 1, 0
  {
    if k < 64 {
      match OwnPieceAt(pos.cells, k, color)
      case None =>
        EscapeKeepsPieces(pos, color, k + 1, orig);
      case Some(p) =>
        OwnPieceHome(pos.cells, k, color);
        SameHome(orig, pos.cells);
        var gen := ValidMovesOf(pos, p);
        GeneratedValid(pos, p);
        ValidMovesKeepPieces(pos, p);
        forall t | t in gen.moves
          ensures Playable(orig, MoveTo(None, Row(k), Col(k), t))
        {
          GeneratedPlayable(pos, p, t, None);
          PlayableSame(pos.cells, orig, MoveTo(None, Row(k), Col(k), t));
        }
        TryKeepsPieces(Position(gen.cells, pos.lastMove), color, k, gen.moves, 0, orig);
    }
  }

  lemma {:induction false} TryKeepsPieces(pos: Position, color: Color, k: nat, moves: seq<Coord>, i: nat, orig: Cells)
    requires Valid(pos.cells) && k < 64 && i <= |moves|
    requires SamePieces(pos.cells, orig) && Valid(orig) && KingsHome(orig)
    requires forall t :: t in moves ==> Playable(orig, MoveTo(None, Row(k), Col(k), t))
    ensures TryEscapes(pos, color, k, moves, i).Ok? ==>
            SamePieces(TryEscapes(pos, color, k, moves, i).value.pos.cells, orig)
    decreases 64 - k, 0, |moves| - i, 1
  {
    if i == |moves| {
      EscapeKeepsPieces(pos, color, k + 1, orig);
    } else {
      TryKeepsStep(pos, color, k, moves, i, orig);
    }
  }

  /** One trial of `TryKeepsPieces`: the move is playable, so it is made and undone and the
      pieces come back. */
  lemma {:induction false} TryKeepsStep(pos: Position, color: Color, k: nat, moves: seq<Coord>, i: nat, orig: Cells)
    requires Valid(pos.cells) && k < 64 && i < |moves|
    requires SamePieces(pos.cells, orig) && Valid(orig) && KingsHome(orig)
    requires forall t :: t in moves ==> Playable(orig, MoveTo(None, Row(k), Col(k), t))
    ensures TryEscapes(pos, color, k, moves, i).Ok? ==>
            SamePieces(TryEscapes(pos, color, k, moves, i).value.pos.cells, orig)
    decreases 64 - k, 0, |moves| - i, 0
  {
    var m := MoveTo(None, Row(k), Col(k), moves[i]);
    assert moves[i] in moves;
    PlayableSame(orig, pos.cells, m);
    RoundTrip(pos, m);
    var made := MakeMove(pos, m).value;
    var back := Unmake(made.pos, made.undo).value;
    TryStep(pos, color, k, moves, i);
    SameHome(orig, back.cells);
    TryKeepsPieces(back, color, k, moves, i + 1, orig);
  }

  /** One trial of `TryEscapes` whose move and undo both succeed: the walk stops on the
      restored position or goes on from it. */
  lemma TryStep(pos: Position, color: Color, k: nat, moves: seq<Coord>, i: nat)
    requires Valid(pos.cells) && k < 64 && i < |moves|
    requires MakeMove(pos, MoveTo(None, Row(k), Col(k), moves[i])).Ok?
    requires var made := MakeMove(pos, MoveTo(None, Row(k), Col(k), moves[i])).value;
             Unmake(made.pos, made.undo).Ok?
    ensures var made := MakeMove(pos, MoveTo(None, Row(k), Col(k), moves[i])).value;
            var back := Unmake(made.pos, made.undo).value;
            Valid(back.cells) &&
            (TryEscapes(pos, color, k, moves, i).Ok? ==>
               TryEscapes(pos, color, k, moves, i).value.pos == back ||
               TryEscapes(pos, color, k, moves, i) == TryEscapes(back, color, k, moves, i + 1))
  {
    var m := MoveTo(None, Row(k), Col(k), moves[i]);
    MakeMoveValid(pos, m);
    var made := MakeMove(pos, m).value;
    UnmakeValid(made.pos, made.undo);
  }

  /** One square of the `isStalemate` walk holding a piece of the side: the walk stops when
      its generator offers a move and goes on otherwise, on the grid the generator left. */
  lemma MovelessUnfold(pos: Position, color: Color, k: nat, p: Piece, moves: seq<Coord>, after: Position)
    requires Valid(pos.cells) && k < 64 && OwnPieceAt(pos.cells, k, color) == Some(p)
    requires InBounds(p.row, p.col)
    requires Generated(moves, after.cells) == ValidMovesOf(pos, p) && after.lastMove == pos.lastMove
    ensures Valid(after.cells)
    ensures |moves| > 0 ==> MovelessFrom(pos, color, k) == Verdict(false, after)
    ensures |moves| == 0 ==> MovelessFrom(pos, color, k) == MovelessFrom(after, color, k + 1)
  {
    GeneratedValid(pos, p);
  }

  /** A square without a piece of the side passes the `isStalemate` walk on unchanged. */
  lemma MovelessSkip(pos: Position, color: Color, k: nat)
    requires Valid(pos.cells) && k < 64 && OwnPieceAt(pos.cells, k, color).None?
    ensures MovelessFrom(pos, color, k) == MovelessFrom(pos, color, k + 1)
  {
  }

  /** A square without a piece of the side passes the `isCheckmate` walk on unchanged. */
  lemma EscapeSkip(pos: Position, color: Color, k: nat)
    requires Valid(pos.cells) && k < 64 && OwnPieceAt(pos.cells, k, color).None?
    ensures EscapeFrom(pos, color, k) == EscapeFrom(pos, color, k + 1)
  {
  }

  /** One square of the `isCheckmate` walk holding a piece of the side: the walk goes on
      with that piece's trials, on the grid its generator left. */
  lemma EscapeUnfold(pos: Position, color: Color, k: nat, p: Piece, moves: seq<Coord>, after: Position)
    requires Valid(pos.cells) && k < 64 && OwnPieceAt(pos.cells, k, color) == Some(p)
    requires InBounds(p.row, p.col)
    requires Generated(moves, after.cells) == ValidMovesOf(pos, p) && after.lastMove == pos.lastMove
    ensures Valid(after.cells)
    ensures EscapeFrom(pos, color, k) == TryEscapes(after, color, k, moves, 0)
  {
    GeneratedValid(pos, p);
  }

  /** The ways one trial of the `isCheckmate` loop throws: `movePiece` throws, the king is
      gone afterwards, or `unmakeMove` throws. */
  lemma TryCrashes(pos: Position, color: Color, k: nat, moves: seq<Coord>, i: nat)
    requires Valid(pos.cells) && k < 64 && i < |moves|
    ensures var m := MoveTo(None, Row(k), Col(k), moves[i]);
            MakeMove(pos, m).Crashed? ==> TryEscapes(pos, color, k, moves, i).Crashed?
    ensures var m := MoveTo(None, Row(k), Col(k), moves[i]);
            MakeMove(pos, m).Ok? && FindKing(MakeMove(pos, m).value.pos.cells, color).None? ==>
              TryEscapes(pos, color, k, moves, i).Crashed?
    ensures var m := MoveTo(None, Row(k), Col(k), moves[i]);
            MakeMove(pos, m).Ok? && FindKing(MakeMove(pos, m).value.pos.cells, color).Some?
            && Unmake(MakeMove(pos, m).value.pos, MakeMove(pos, m).value.undo).Crashed? ==>
              TryEscapes(pos, color, k, moves, i).Crashed?
  {
  }

  /** One trial of the `isCheckmate` loop that does not throw, in terms of the position
      after the move `made`, the king found there and the position `back` after the undo:
      a safe king ends the loop, otherwise it goes on from `back`. */
  lemma TryUnfold(pos: Position, color: Color, k: nat, moves: seq<Coord>, i: nat, made: Made, king: Piece, back: Position)
    requires Valid(pos.cells) && k < 64 && i < |moves|
    requires MakeMove(pos, MoveTo(None, Row(k), Col(k), moves[i])) == Ok(made)
    requires FindKing(made.pos.cells, color) == Some(king)
    requires Unmake(made.pos, made.undo) == Ok(back)
    ensures Valid(back.cells)
    ensures !Attacked(made.pos.cells, king.row, king.col, color) ==>
              TryEscapes(pos, color, k, moves, i) == Ok(Verdict(false, back))
    ensures Attacked(made.pos.cells, king.row, king.col, color) ==>
              TryEscapes(pos, color, k, moves, i) == TryEscapes(back, color, k, moves, i + 1)
  {
    MakeMoveValid(pos, MoveTo(None, Row(k), Col(k), moves[i]));
    UnmakeValid(made.pos, made.undo);
  }

  // ---------------------------------------------------------------- what isStalemate answers

  /** The flat-index reading of `SamePieces`. */
  lemma OwnPieceSame(a: Cells, b: Cells, k: int, color: Color)
    requires SamePieces(a, b) && 0 <= k < 64
    ensures OwnPieceAt(a, k, color) == OwnPieceAt(b, k, color)
  {
    assert InBounds(Row(k), Col(k)) && Idx(Row(k), Col(k)) == k;
  }

  /** No piece of `color` on flat index k or later has a generated move. */
  ghost predicate StuckFrom(pos: Position, color: Color, k: nat)
    requires k <= 64
  {
    forall j | k <= j < 64 && OwnPieceAt(pos.cells, j, color).Some? ::
      var p := OwnPieceAt(pos.cells, j, color).value;
      InBounds(p.row, p.col) && ValidMovesOf(pos, p).moves == []
  }

  lemma StuckStep(pos: Position, color: Color, k: nat)
    requires k < 64 && Valid(pos.cells)
    ensures StuckFrom(pos, color, k) <==>
              StuckFrom(pos, color, k + 1) &&
              (OwnPieceAt(pos.cells, k, color).Some? ==>
                 var p := OwnPieceAt(pos.cells, k, color).value;
                 InBounds(p.row, p.col) && ValidMovesOf(pos, p).moves == [])
  {
  }

  /** The walk of `isStalemate` answers true exactly when no piece from k on has a move in
      the position it started from, and it changes only flags. */
  lemma {:induction false} MovelessMeaning(pos: Position, color: Color, k: nat, orig: Position)
    requires Valid(pos.cells) && Valid(orig.cells) && k <= 64
    requires SamePieces(pos.cells, orig.cells) && pos.lastMove == orig.lastMove
    ensures MovelessFrom(pos, color, k).holds <==> StuckFrom(orig, color, k)
    ensures SamePieces(MovelessFrom(pos, color, k).pos.cells, orig.cells)
    ensures MovelessFrom(pos, color, k).pos.lastMove == orig.lastMove
    decreases 64 - k, 1
  {
    if k < 64 {
      OwnPieceSame(pos.cells, orig.cells, k, color);
      StuckStep(orig, color, k);
      match OwnPieceAt(pos.cells, k, color)
      case None =>
        MovelessMeaning(pos, color, k + 1, orig);
      case Some(p) =>
        MovelessPiece(pos, color, k, orig, p);
    }
  }

  /** The step of `MovelessMeaning` at a square holding a piece of the side: its generator
      either offers a move, which ends the walk, or leaves the pieces where they were. */
  lemma {:induction false} MovelessPiece(pos: Position, color: Color, k: nat, orig: Position, p: Piece)
    requires Valid(pos.cells) && Valid(orig.cells) && k < 64
    requires SamePieces(pos.cells, orig.cells) && pos.lastMove == orig.lastMove
    requires OwnPieceAt(pos.cells, k, color) == Some(p)
    ensures MovelessFrom(pos, color, k).holds <==> StuckFrom(orig, color, k)
    ensures SamePieces(MovelessFrom(pos, color, k).pos.cells, orig.cells)
    ensures MovelessFrom(pos, color, k).pos.lastMove == orig.lastMove
    decreases 64 - k, 0
  {
    OwnPieceSame(pos.cells, orig.cells, k, color);
    StuckStep(orig, color, k);
    OwnPieceHome(pos.cells, k, color);
    var gen := ValidMovesOf(pos, p);
    GeneratedValid(pos, p);
    ValidMovesKeepPieces(pos, p);
    ValidMovesSame(pos, orig, p);
    if |gen.moves| == 0 {
      MovelessMeaning(Position(gen.cells, pos.lastMove), color, k + 1, orig);
    }
  }

  /** `isStalemate` throws exactly when the side has no king, answers true exactly when the
      king is not attacked and no piece of the side has a move, and leaves every piece and
      the last move where they were. */
  lemma StalemateMeaning(pos: Position, color: Color)
    requires Valid(pos.cells)
    ensures Stalemate(pos, color).Crashed? <==> FindKing(pos.cells, color).None?
    ensures Stalemate(pos, color).Ok? ==>
              (Stalemate(pos, color).value.holds <==>
                 var king := FindKing(pos.cells, color).value;
                 !Attacked(pos.cells, king.row, king.col, color) && StuckFrom(pos, color, 0))
    ensures Stalemate(pos, color).Ok? ==>
              SamePieces(Stalemate(pos, color).value.pos.cells, pos.cells) &&
              Stalemate(pos, color).value.pos.lastMove == pos.lastMove
  {
    MovelessMeaning(pos, color, 0, pos);
  }

  // ---------------------------------------------------------------- what isCheckmate answers

  /** With no move for any piece from k on, the walk of `isCheckmate` finds no escape. */
  lemma {:induction false} StuckNoEscape(pos: Position, color: Color, k: nat, orig: Position)
    requires Valid(pos.cells) && Valid(orig.cells) && k <= 64
    requires SamePieces(pos.cells, orig.cells) && pos.lastMove == orig.lastMove
    requires StuckFrom(orig, color, k)
    ensures EscapeFrom(pos, color, k).Ok? && EscapeFrom(pos, color, k).value.holds
    decreases 64 - k
  {
    if k < 64 {
      OwnPieceSame(pos.cells, orig.cells, k, color);
      StuckStep(orig, color, k);
      match OwnPieceAt(pos.cells, k, color)
      case None =>
        StuckNoEscape(pos, color, k + 1, orig);
      case Some(p) =>
        OwnPieceHome(pos.cells, k, color);
        var gen := ValidMovesOf(pos, p);
        GeneratedValid(pos, p);
        ValidMovesKeepPieces(pos, p);
        ValidMovesSame(pos, orig, p);
        StuckNoEscape(Position(gen.cells, pos.lastMove), color, k + 1, orig);
    }
  }

  /** `isCheckmate` throws without a king, is false when the king is not attacked, is true
      only when it is, and is true whenever the king is attacked and no piece of the side has
      a move. */
  lemma CheckmateMeaning(pos: Position, color: Color)
    requires Valid(pos.cells)
    ensures FindKing(pos.cells, color).None? ==> Checkmate(pos, color).Crashed?
    ensures Checkmate(pos, color).Ok? && Checkmate(pos, color).value.holds ==>
              var king := FindKing(pos.cells, color).value;
              Attacked(pos.cells, king.row, king.col, color)
    ensures FindKing(pos.cells, color).Some? ==>
              var king := FindKing(pos.cells, color).value;
              (!Attacked(pos.cells, king.row, king.col, color) ==> Checkmate(pos, color) == Ok(Verdict(false, pos))) &&
              (Attacked(pos.cells, king.row, king.col, color) && StuckFrom(pos, color, 0) ==>
                 Checkmate(pos, color).Ok? && Checkmate(pos, color).value.holds)
  {
    if FindKing(pos.cells, color).Some? && StuckFrom(pos, color, 0) {
      StuckNoEscape(pos, color, 0, pos);
    }
  }

  /** A side with a king and no move at all is either checkmated or stalemated, never both. */
  lemma MateOrStalemate(pos: Position, color: Color)
    requires Valid(pos.cells) && FindKing(pos.cells, color).Some? && StuckFrom(pos, color, 0)
    ensures Checkmate(pos, color).Ok? && Stalemate(pos, color).Ok?
    ensures Checkmate(pos, color).value.holds != Stalemate(pos, color).value.holds
  {
    CheckmateMeaning(pos, color);
    StalemateMeaning(pos, color);
  }
}
