/**
  The `AI` class of the second chess engine (docs/chess/chess.js): a material count, and a
  one-ply search for Black that makes each move on the real board, evaluates it and puts
  the mover and the captured piece back by hand.  The class has no state besides its
  constant table of piece values, so its methods are module methods here.
 */
module DocsAI {
  import opened ChessTypes
  import opened ChessBoard
  import opened DocsRules
  import opened DocsBoard
  import ChessAI

  // ---------------------------------------------------------------- evaluateBoard

  /** What a tile's occupant adds to `evaluateBoard`: its value from `pieceValues`, counted
      for White and against Black. */
  function Worth(p: Option<Piece>): int {
    match p
    case None => 0
    case Some(q) => if q.color == White then ChessAI.PieceValue(q.kind) else -ChessAI.PieceValue(q.kind)
  }

  /** The first j tiles of row i. */
  function RowWorth(cells: Cells, i: int, j: int): int
    requires 0 <= i < 8 && 0 <= j <= 8
  {
    if j == 0 then 0 else RowWorth(cells, i, j - 1) + Worth(PieceAt(cells, i, j - 1))
  }

  /** The first i rows. */
  function RowsWorth(cells: Cells, i: int): int
    requires 0 <= i <= 8
  {
    if i == 0 then 0 else RowsWorth(cells, i - 1) + RowWorth(cells, i - 1, 8)
  }

  /** `evaluateBoard(board)`: White's material minus Black's. */
  function Material(cells: Cells): int {
    RowsWorth(cells, 8)
  }

  /** `evaluateBoard(board)`: the two nested loops over the grid. */
  method EvaluateBoard(board: Board) returns (score: int)
    ensures score == Material(board.cells)
  {
    score := 0;
    for i := 0 to 8
      invariant score == RowsWorth(board.cells, i)
    {
      for j := 0 to 8
        invariant score == RowsWorth(board.cells, i) + RowWorth(board.cells, i, j)
      {
        var p := GetTile(board.cells, i, j).value.piece;
        if p.Some? {
          var v := ChessAI.PieceValue(p.value.kind);
          score := score + if p.value.color == White then v else -v;
        }
      }
    }
  }

  /** Changing the occupant of one tile of row i changes the row's sum by the difference of
      the two values when the tile is among the first j. */
  lemma {:induction false} RowWorthSet(cells: Cells, r: int, c: int, p: Option<Piece>, i: int, j: int)
    requires InBounds(r, c) && 0 <= i < 8 && 0 <= j <= 8
    ensures RowWorth(SetPiece(cells, r, c, p), i, j) ==
              RowWorth(cells, i, j) + (if i == r && c < j then Worth(p) - Worth(PieceAt(cells, r, c)) else 0)
  {
    if j > 0 {
      RowWorthSet(cells, r, c, p, i, j - 1);
      if !(i == r && j - 1 == c) {
        assert PieceAt(SetPiece(cells, r, c, p), i, j - 1) == PieceAt(cells, i, j - 1);
      }
    }
  }

  lemma {:induction false} RowsWorthSet(cells: Cells, r: int, c: int, p: Option<Piece>, i: int)
    requires InBounds(r, c) && 0 <= i <= 8
    ensures RowsWorth(SetPiece(cells, r, c, p), i) ==
              RowsWorth(cells, i) + (if r < i then Worth(p) - Worth(PieceAt(cells, r, c)) else 0)
  {
    if i > 0 {
      RowsWorthSet(cells, r, c, p, i - 1);
      RowWorthSet(cells, r, c, p, i - 1, 8);
    }
  }

  /** Putting p on a tile changes the evaluation by p's value minus the value of the piece it
      replaces: a capture of a black piece raises it by that piece's value. */
  lemma MaterialSet(cells: Cells, r: int, c: int, p: Option<Piece>)
    requires InBounds(r, c)
    ensures Material(SetPiece(cells, r, c, p)) == Material(cells) - Worth(PieceAt(cells, r, c)) + Worth(p)
  {
    RowsWorthSet(cells, r, c, p, 8);
  }

  /** The flags do not enter the evaluation. */
  lemma MaterialPieces(a: Cells, b: Cells)
    requires SamePieces(a, b)
    ensures Material(a) == Material(b)
  {
    forall i | 0 <= i < 8
      ensures RowWorth(a, i, 8) == RowWorth(b, i, 8)
    {
      SamePiecesRow(a, b, i, 8);
    }
    SamePiecesRows(a, b, 8);
  }

  lemma {:induction false} SamePiecesRow(a: Cells, b: Cells, i: int, j: int)
    requires SamePieces(a, b) && 0 <= i < 8 && 0 <= j <= 8
    ensures RowWorth(a, i, j) == RowWorth(b, i, j)
  {
    if j > 0 {
      SamePiecesRow(a, b, i, j - 1);
    }
  }

  lemma {:induction false} SamePiecesRows(a: Cells, b: Cells, n: int)
    requires 0 <= n <= 8 && forall i :: 0 <= i < 8 ==> RowWorth(a, i, 8) == RowWorth(b, i, 8)
    ensures RowsWorth(a, n) == RowsWorth(b, n)
  {
    if n > 0 {
      SamePiecesRows(a, b, n - 1);
    }
  }

  /** Every tile of `a` is worth the opposite of the same column on the facing row of `b`. */
  ghost predicate Opposed(a: Cells, b: Cells) {
    forall i, j :: InBounds(i, j) ==> Worth(PieceAt(a, i, j)) == -Worth(PieceAt(b, 7 - i, j))
  }

  lemma {:induction false} OpposedRowWorth(a: Cells, b: Cells, i: int, j: int)
    requires Opposed(a, b) && 0 <= i < 8 && 0 <= j <= 8
    ensures RowWorth(a, i, j) == -RowWorth(b, 7 - i, j)
  {
    if j > 0 {
      OpposedRowWorth(a, b, i, j - 1);
    }
  }

  /** The first n rows of `a` are worth the opposite of the last n rows of `b`. */
  lemma {:induction false} OpposedRowsWorth(a: Cells, b: Cells, n: int)
    requires Opposed(a, b) && 0 <= n <= 8
    ensures RowsWorth(a, n) == RowsWorth(b, 8 - n) - RowsWorth(b, 8)
  {
    if n > 0 {
      OpposedRowsWorth(a, b, n - 1);
      OpposedRowWorth(a, b, n - 1, 8);
    }
  }

  /** The starting position is level: each black piece faces a white piece of its kind. */
  lemma MaterialInitial()
    ensures Material(InitialCells()) == 0
  {
    InitialOpposed();
    OpposedLevel(InitialCells());
  }

  /** The starting grid faces itself: each tile is worth the opposite of the facing tile. */
  lemma InitialOpposed()
    ensures Opposed(InitialCells(), InitialCells())
  {
    var cells := InitialCells();
    forall i, j | InBounds(i, j)
      ensures Worth(PieceAt(cells, i, j)) == -Worth(PieceAt(cells, 7 - i, j))
    {
      HomeFacing(i, j);
    }
  }

  /** A grid that faces itself is level. */
  lemma OpposedLevel(cells: Cells)
    requires Opposed(cells, cells)
    ensures Material(cells) == 0
  {
    OpposedRowsWorth(cells, cells, 8);
  }

  /** The home squares of facing rows hold the same kind in the other colour. */
  lemma HomeFacing(i: int, j: int)
    requires InBounds(i, j)
    ensures HomePiece(i, j).Some? <==> HomePiece(7 - i, j).Some?
    ensures HomePiece(i, j).Some? ==>
              HomePiece(7 - i, j).value == (Opponent(HomePiece(i, j).value.0), HomePiece(i, j).value.1)
  {
  }

  // ---------------------------------------------------------------- getBestMove

  /** What one pass of the loop of `getBestMove` leaves: the value of the move and the grid
      and last move after it is taken back. */
  datatype Trial = Trial(value: int, cells: Cells, lastMove: Option<Move>)

  /** The undo of `getBestMove`: the move's piece object goes back on the start tile, its
      `tile` pointing there (and its `firstMove`, cleared by `movePiece` on that same object,
      stays false), and the captured piece goes back on the target. */
  function TakenBack(after: Cells, m: Move, captured: Option<Piece>): Cells
    requires InBounds(m.startRow, m.startCol) && InBounds(m.endRow, m.endCol)
  {
    SetPiece(SetPiece(after, m.startRow, m.startCol, Some(m.piece.(row := m.startRow, col := m.startCol, firstMove := false))),
             m.endRow, m.endCol, captured)
  }

  /** One pass of the loop: the target's piece is read (a missing target tile throws), the
      move is made, the board evaluated and the move taken back. */
  function TryMove(cells: Cells, m: Move): Fallible<Trial> {
    if !InBounds(m.endRow, m.endCol) then Crashed
    else
      var captured := PieceAt(cells, m.endRow, m.endCol);
      match Moved(cells, m)
      case Crashed => Crashed
      case Ok(after) => Ok(Trial(Material(after), TakenBack(after, m, captured), Some(m)))
  }

  /** The values and the board the loop leaves. */
  datatype Tried = Tried(values: seq<ChessAI.Score>, cells: Cells, lastMove: Option<Move>)

  /** The passes of the loop from move i on, each on the board the passes before it left,
      the values appended to `seen`. */
  function TrialsFrom(cells: Cells, last: Option<Move>, moves: seq<Move>, i: nat, seen: seq<ChessAI.Score>): (r: Fallible<Tried>)
    requires i <= |moves|
    ensures r.Ok? ==> |r.value.values| == |seen| + |moves| - i
    ensures r.Ok? && (forall n :: 0 <= n < |seen| ==> seen[n].Fin?) ==>
              forall n :: 0 <= n < |r.value.values| ==> r.value.values[n].Fin?
    decreases |moves| - i
  {
    if i == |moves| then Ok(Tried(seen, cells, last))
    else match TryMove(cells, moves[i])
      case Crashed => Crashed
      case Ok(t) => TrialsFrom(t.cells, t.lastMove, moves, i + 1, seen + [ChessAI.Fin(t.value)])
  }

  /** The move `getBestMove` returns and the board it leaves. */
  datatype Chosen = Chosen(move: Option<Move>, cells: Cells, lastMove: Option<Move>)

  /** `getBestMove(board)`: Black's moves are tried in order and the first of least value is
      kept; `null` when Black has no move. */
  ghost function BestMoveOf(cells: Cells, last: Option<Move>): Fallible<Chosen> {
    var moves := AllMoves(cells, Black);
    match TrialsFrom(cells, last, moves, 0, [])
    case Crashed => Crashed
    case Ok(tried) =>
      var pick := ChessAI.BestOf(tried.values);
      Ok(Chosen(if pick.index.Some? then Some(moves[pick.index.value]) else None, tried.cells, tried.lastMove))
  }

  /** The choice is a move `getAllMoves` lists for Black, there is none exactly when Black has
      no move, and it is the first move whose value, as tried in order, is least. */
  lemma BestMoveMeaning(cells: Cells, last: Option<Move>)
    ensures var moves := AllMoves(cells, Black);
            var tried := TrialsFrom(cells, last, moves, 0, []);
            BestMoveOf(cells, last).Ok? ==>
              && tried.Ok?
              && (BestMoveOf(cells, last).value.move.None? <==> moves == [])
              && (BestMoveOf(cells, last).value.move.Some? ==>
                    var m := BestMoveOf(cells, last).value.move.value;
                    && m in moves
                    && exists i :: 0 <= i < |moves| && moves[i] == m
                         && (forall n :: 0 <= n < i ==> ChessAI.Below(tried.value.values[i], tried.value.values[n]))
                         && (forall n :: i < n < |moves| ==> !ChessAI.Below(tried.value.values[n], tried.value.values[i])))
  {
    var moves := AllMoves(cells, Black);
    if BestMoveOf(cells, last).Ok? {
      var values := TrialsFrom(cells, last, moves, 0, []).value.values;
      ChessAI.BestOfMeaning(values);
      if moves != [] {
        assert values[0].Fin?;
      }
    }
  }

  /** One pass of the loop, once the move has been made, evaluated and taken back. */
  lemma TrialsStep(cells: Cells, last: Option<Move>, moves: seq<Move>, i: nat, seen: seq<ChessAI.Score>, t: Trial)
    requires i < |moves| && TryMove(cells, moves[i]) == Ok(t)
    ensures TrialsFrom(cells, last, moves, i, seen) == TrialsFrom(t.cells, t.lastMove, moves, i + 1, seen + [ChessAI.Fin(t.value)])
  {
  }

  /** The best so far after `values`: the move at the chosen index, and its value. */
  predicate Leading(moves: seq<Move>, values: seq<ChessAI.Score>, best: Option<Move>, bestVal: ChessAI.Score)
    requires |values| <= |moves|
  {
    var pick := ChessAI.BestOf(values);
    best == (if pick.index.Some? then Some(moves[pick.index.value]) else None) && bestVal == pick.value
  }

  /** One more value: a value strictly below the best so far takes its place. */
  lemma LeadingStep(moves: seq<Move>, values: seq<ChessAI.Score>, best: Option<Move>, bestVal: ChessAI.Score, v: int)
    requires |values| < |moves| && Leading(moves, values, best, bestVal)
    ensures ChessAI.Below(ChessAI.Fin(v), bestVal) ==> Leading(moves, values + [ChessAI.Fin(v)], Some(moves[|values|]), ChessAI.Fin(v))
    ensures !ChessAI.Below(ChessAI.Fin(v), bestVal) ==> Leading(moves, values + [ChessAI.Fin(v)], best, bestVal)
  {
    assert (values + [ChessAI.Fin(v)])[..|values|] == values;
  }

  /** The board and the answer `getBestMove` leaves, as `BestMoveOf` describes them. */
  ghost predicate Follows(res: Fallible<Option<Move>>, cells: Cells, lastMove: Option<Move>, chosen: Fallible<Chosen>) {
    res.Ok? == chosen.Ok? &&
    (res.Ok? ==> res.value == chosen.value.move && cells == chosen.value.cells && lastMove == chosen.value.lastMove)
  }

  /** `getBestMove(board)`; `Crashed` stands for a `TypeError` thrown by a pass. */
  method GetBestMove(board: Board) returns (res: Fallible<Option<Move>>)
    requires Valid(board.cells)
    modifies board
    ensures Follows(res, board.cells, board.lastMove, BestMoveOf(old(board.cells), old(board.lastMove)))
  {
    var moves := GetAllMoves(board, Black);
    ghost var values: seq<ChessAI.Score> := [];
    var best: Option<Move> := None;
    var bestVal: ChessAI.Score := ChessAI.PosInf;
    for i := 0 to |moves|
      invariant |values| == i
      invariant TrialsFrom(board.cells, board.lastMove, moves, i, values) == TrialsFrom(old(board.cells), old(board.lastMove), moves, 0, [])
      invariant Leading(moves, values, best, bestVal)
    {
      ghost var before, beforeLast := board.cells, board.lastMove;
      var ok, val := TryOnBoard(board, moves[i]);
      if !ok {
        return Crashed;
      }
      TrialsStep(before, beforeLast, moves, i, values, TryMove(before, moves[i]).value);
      LeadingStep(moves, values, best, bestVal, val);
      values := values + [ChessAI.Fin(val)];
      if ChessAI.Below(ChessAI.Fin(val), bestVal) {
        bestVal := ChessAI.Fin(val);
        best := Some(moves[i]);
      }
    }
    return Ok(best);
  }

  /** One pass of the loop of `getBestMove` on the board itself: read the captured piece,
      `movePiece`, `evaluateBoard`, then put the mover and the captured piece back. */
  method TryOnBoard(board: Board, m: Move) returns (ok: bool, val: int)
    modifies board
    ensures ok == TryMove(old(board.cells), m).Ok?
    ensures ok ==> val == TryMove(old(board.cells), m).value.value && board.cells == TryMove(old(board.cells), m).value.cells
                   && board.lastMove == TryMove(old(board.cells), m).value.lastMove
  {
    var endTile := GetTile(board.cells, m.endRow, m.endCol);
    if endTile.None? {
      return false, 0;
    }
    var captured := endTile.value.piece;
    ghost var start := board.cells;
    ok := board.MovePiece(m);
    if !ok {
      return false, 0;
    }
    ghost var after := board.cells;
    val := EvaluateBoard(board);
    board.cells := SetPiece(board.cells, m.startRow, m.startCol, Some(m.piece.(row := m.startRow, col := m.startCol, firstMove := false)));
    board.cells := SetPiece(board.cells, m.endRow, m.endCol, captured);
    assert board.cells == TakenBack(after, m, captured);
  }

  /** `makeMove(board)`: search, then play the chosen move, if any (the redraw and the turn
      switch are outside the model). */
  method PlayBestMove(board: Board) returns (res: Fallible<bool>)
    requires Valid(board.cells)
    modifies board
    ensures Played(res, board.cells, board.lastMove, BestMoveOf(old(board.cells), old(board.lastMove)))
  {
    var best := GetBestMove(board);
    if best.Crashed? {
      return Crashed;
    }
    if best.value.None? {
      return Ok(false);
    }
    var ok := board.MovePiece(best.value.value);
    if !ok {
      return Crashed;
    }
    return Ok(true);
  }

  /** The outcome of `makeMove`: the search throws, finds nothing (the board stays as the
      search left it), or its move is played on the board the search left. */
  ghost predicate Played(res: Fallible<bool>, cells: Cells, lastMove: Option<Move>, chosen: Fallible<Chosen>) {
    if chosen.Crashed? then res.Crashed?
    else if chosen.value.move.None? then res == Ok(false) && cells == chosen.value.cells && lastMove == chosen.value.lastMove
    else
      var m := chosen.value.move.value;
      res.Ok? == Moved(chosen.value.cells, m).Ok? &&
      (res.Ok? ==> res == Ok(true) && cells == Moved(chosen.value.cells, m).value && lastMove == Some(m))
  }

  // ---------------------------------------------------------------- what a trial leaves

  /** The value of a plain move (no castling, no en passant) is the material before it minus
      the worth of the piece it captures. */
  lemma TrialValuePlain(cells: Cells, m: Move)
    requires TryMove(cells, m).Ok?
    requires var piece := PieceAt(cells, m.startRow, m.startCol).value;
             !Castling(piece, m) && !(piece.kind == Pawn && FlagAt(cells, m.endRow, m.endCol))
    requires (m.startRow, m.startCol) != (m.endRow, m.endCol)
    ensures TryMove(cells, m).value.value == Material(cells) - Worth(PieceAt(cells, m.endRow, m.endCol))
  {
    var piece := PieceAt(cells, m.startRow, m.startCol).value;
    var mover := piece.(row := m.endRow, col := m.endCol, firstMove := false);
    var placed := SetPiece(cells, m.endRow, m.endCol, Some(mover));
    var emptied := SetPiece(placed, m.startRow, m.startCol, None);
    assert Moved(cells, m).value == Landed(cells, piece, m);
    MaterialSet(cells, m.endRow, m.endCol, Some(mover));
    MaterialSet(placed, m.startRow, m.startCol, None);
    assert PieceAt(placed, m.startRow, m.startCol) == Some(piece);
    var left := ClearFlags(emptied);
    MaterialPieces(left, emptied);
    if DoubleStep(piece, m) {
      MaterialPieces(SetFlag(left, (m.startRow + m.endRow) / 2, m.startCol), left);
    }
  }

  /** After a trial the captured piece is back on the target and the mover on its start
      tile, but, as written, with `firstMove` false: a piece that had not moved has, after
      the search, lost its double step or its castling. */
  lemma TrialPutsBack(cells: Cells, m: Move)
    requires TryMove(cells, m).Ok? && (m.startRow, m.startCol) != (m.endRow, m.endCol)
    ensures PieceAt(TryMove(cells, m).value.cells, m.endRow, m.endCol) == PieceAt(cells, m.endRow, m.endCol)
    ensures PieceAt(TryMove(cells, m).value.cells, m.startRow, m.startCol) ==
              Some(m.piece.(row := m.startRow, col := m.startCol, firstMove := false))
  {
  }

  /** As written, a pawn's trial leaves it unable to advance two rows. */
  lemma TrialDisarmsPawn(cells: Cells, m: Move)
    requires TryMove(cells, m).Ok? && (m.startRow, m.startCol) != (m.endRow, m.endCol) && m.piece.kind == Pawn
    ensures var back := TryMove(cells, m).value.cells;
            PieceAt(back, m.startRow, m.startCol).Some?
            && Coord(m.startRow + 2 * Direction(m.piece.color), m.startCol) !in PawnMoves(back, PieceAt(back, m.startRow, m.startCol).value)
  {
    var back := TryMove(cells, m).value.cells;
    var q := m.piece.(row := m.startRow, col := m.startCol, firstMove := false);
    TrialPutsBack(cells, m);
    PawnMovesExact(back, q, Coord(m.startRow + 2 * Direction(m.piece.color), m.startCol));
  }

  /** On the starting board Black's pawn on (1, 0) may advance to (3, 0), and the trial of its
      step to (2, 0) goes through; by `TrialDisarmsPawn` that trial takes the double step away. */
  lemma InitialPawnTrial()
    ensures var cells := InitialCells();
            var pawn := PieceAt(cells, 1, 0).value;
            && pawn.kind == Pawn && pawn.color == Black
            && Coord(3, 0) in PawnMoves(cells, pawn)
            && TryMove(cells, Move(pawn, 1, 0, 2, 0)).Ok?
  {
    var cells := InitialCells();
    var pawn := PieceAt(cells, 1, 0).value;
    PawnMovesExact(cells, pawn, Coord(3, 0));
    MovedCrashes(cells, Move(pawn, 1, 0, 2, 0));
  }

  /** As written, the first trial on the starting board already changes it: the pawn on
      (1, 0) comes back having lost its first move, while the fixed trial of the same move
      gives the starting board back. */
  lemma InitialTrialChangesBoard()
    ensures var cells := InitialCells();
            var m := Move(PieceAt(cells, 1, 0).value, 1, 0, 2, 0);
            && TryMove(cells, m).Ok? && TryMove(cells, m).value.cells != cells
            && FixedTryMove(cells, m).Ok? && FixedTryMove(cells, m).value.cells == cells
  {
    var cells := InitialCells();
    var m := Move(PieceAt(cells, 1, 0).value, 1, 0, 2, 0);
    InitialPawnTrial();
    TrialPutsBack(cells, m);
    FixedTrialRestores(cells, m);
    assert PieceAt(cells, 1, 0).value.firstMove;
    assert PieceAt(TryMove(cells, m).value.cells, 1, 0).value.firstMove == false;
  }

  /** As written, a castling trial leaves the rook beside the king's target: the king goes
      home but the rook of column 7 stays on column 5. */
  lemma TrialLeavesRook(cells: Cells, m: Move)
    requires TryMove(cells, m).Ok?
    requires Castling(PieceAt(cells, m.startRow, m.startCol).value, m) && m.startCol == 4 && m.endCol == 6
    ensures PieceAt(cells, m.startRow, 7).Some?
    ensures var back := TryMove(cells, m).value.cells;
            PieceAt(back, m.startRow, 7).None?
            && PieceAt(back, m.startRow, 5) == Some(PieceAt(cells, m.startRow, 7).value.(row := m.startRow, col := 5))
  {
    MovedCastles(cells, m);
  }

  /** As written, the rook a kingside castling trial leaves on column 5 is missing from
      column 7, so when the next move tried starts on column 7 (as the rook's moves do, right
      after the king's when no queenside castle is listed) `movePiece` throws and the whole
      search throws with it. */
  lemma CastleTrialStrandsRook(cells: Cells, last: Option<Move>, moves: seq<Move>, i: nat, seen: seq<ChessAI.Score>)
    requires i + 1 < |moves| && TryMove(cells, moves[i]).Ok?
    requires Castling(PieceAt(cells, moves[i].startRow, moves[i].startCol).value, moves[i])
    requires moves[i].startCol == 4 && moves[i].endCol == 6
    requires moves[i + 1].startRow == moves[i].startRow && moves[i + 1].startCol == 7
    ensures TrialsFrom(cells, last, moves, i, seen).Crashed?
  {
    var t := TryMove(cells, moves[i]).value;
    TrialLeavesRook(cells, moves[i]);
    MovedCrashes(t.cells, moves[i + 1]);
    TrialsStep(cells, last, moves, i, seen, t);
  }

  /** As written, a trial that is not a pawn's double step leaves no flag at all: an
      en-passant flag the board had before the search is gone after it. */
  lemma TrialClearsFlags(cells: Cells, m: Move)
    requires TryMove(cells, m).Ok? && !DoubleStep(PieceAt(cells, m.startRow, m.startCol).value, m)
    ensures NoFlags(TryMove(cells, m).value.cells)
  {
    MovedFlags(cells, m);
  }

  /** A trial that keeps what it changes: every tile `movePiece` may write gets its occupant
      back from the saved grid, and every flag comes back too. */
  function Restore(saved: Cells, after: Cells, m: Move, piece: Piece): Cells {
    seq(64, k requires 0 <= k < 64 =>
      Tile(if Touched(saved, m, piece, k / 8, k % 8) then saved[k].piece else after[k].piece, saved[k].enPassant))
  }

  /** `TryMove` with the undo restoring the tiles the move touched and the flags. */
  function FixedTryMove(cells: Cells, m: Move): Fallible<Trial> {
    if !InBounds(m.endRow, m.endCol) then Crashed
    else match Moved(cells, m)
      case Crashed => Crashed
      case Ok(after) =>
        Ok(Trial(Material(after), Restore(cells, after, m, PieceAt(cells, m.startRow, m.startCol).value), Some(m)))
  }

  /** The fixed trial gives the same value as the trial as written and leaves the grid
      exactly as it found it. */
  lemma FixedTrialRestores(cells: Cells, m: Move)
    ensures FixedTryMove(cells, m).Ok? == TryMove(cells, m).Ok?
    ensures FixedTryMove(cells, m).Ok? ==>
              FixedTryMove(cells, m).value.cells == cells
              && FixedTryMove(cells, m).value.value == TryMove(cells, m).value.value
  {
    if FixedTryMove(cells, m).Ok? {
      var after := Moved(cells, m).value;
      var piece := PieceAt(cells, m.startRow, m.startCol).value;
      MovedEffect(cells, m);
      var res := Restore(cells, after, m, piece);
      forall k | 0 <= k < 64
        ensures res[k] == cells[k]
      {
        var r, c := k / 8, k % 8;
        assert InBounds(r, c) && Idx(r, c) == k;
      }
    }
  }

  /** The loop of `getBestMove` with the fixed trial, which also puts the last move back. */
  function FixedTrialsFrom(cells: Cells, last: Option<Move>, moves: seq<Move>, i: nat, seen: seq<ChessAI.Score>): (r: Fallible<Tried>)
    requires i <= |moves|
    ensures r.Ok? ==> |r.value.values| == |seen| + |moves| - i
    decreases |moves| - i
  {
    if i == |moves| then Ok(Tried(seen, cells, last))
    else match FixedTryMove(cells, moves[i])
      case Crashed => Crashed
      case Ok(t) => FixedTrialsFrom(t.cells, last, moves, i + 1, seen + [ChessAI.Fin(t.value)])
  }

  /** `getBestMove` with the fixed trial. */
  ghost function FixedBestMoveOf(cells: Cells, last: Option<Move>): Fallible<Chosen> {
    FixedChoice(cells, last, AllMoves(cells, Black))
  }

  /** The corrected loop over a list of moves and the first least-valued of them. */
  ghost function FixedChoice(cells: Cells, last: Option<Move>, moves: seq<Move>): Fallible<Chosen> {
    match FixedTrialsFrom(cells, last, moves, 0, [])
    case Crashed => Crashed
    case Ok(tried) =>
      var pick := ChessAI.BestOf(tried.values);
      Ok(Chosen(if pick.index.Some? then Some(moves[pick.index.value]) else None, tried.cells, tried.lastMove))
  }

  /** One pass of the fixed loop: a trial that goes through leaves the board as it was. */
  lemma FixedTrialsStep(cells: Cells, last: Option<Move>, moves: seq<Move>, i: nat, seen: seq<ChessAI.Score>)
    requires i < |moves|
    ensures TryMove(cells, moves[i]).Crashed? ==> FixedTrialsFrom(cells, last, moves, i, seen).Crashed?
    ensures TryMove(cells, moves[i]).Ok? ==>
              FixedTrialsFrom(cells, last, moves, i, seen) ==
              FixedTrialsFrom(cells, last, moves, i + 1, seen + [ChessAI.Fin(TryMove(cells, moves[i]).value.value)])
  {
    FixedTrialRestores(cells, moves[i]);
  }

  /** The trial of each move on one board. */
  function Tries(cells: Cells, moves: seq<Move>): (r: seq<Fallible<Trial>>)
    ensures |r| == |moves|
  {
    seq(|moves|, n requires 0 <= n < |moves| => TryMove(cells, moves[n]))
  }

  lemma TriesAt(cells: Cells, moves: seq<Move>, n: nat)
    requires n < |moves|
    ensures Tries(cells, moves)[n] == TryMove(cells, moves[n])
  {
  }

  /** The values of given trials from i on, appended to `seen`, on a board that stays put. */
  function Scan(tries: seq<Fallible<Trial>>, i: nat, seen: seq<ChessAI.Score>, cells: Cells, last: Option<Move>): Fallible<Tried>
    requires i <= |tries|
    decreases |tries| - i
  {
    if i == |tries| then Ok(Tried(seen, cells, last))
    else if tries[i].Crashed? then Crashed
    else Scan(tries, i + 1, seen + [ChessAI.Fin(tries[i].value.value)], cells, last)
  }

  /** The fixed loop is a scan of the trials of every move on the board it was given. */
  lemma {:induction false} FixedTrialsScan(cells: Cells, last: Option<Move>, moves: seq<Move>, i: nat, seen: seq<ChessAI.Score>)
    requires i <= |moves|
    ensures FixedTrialsFrom(cells, last, moves, i, seen) == Scan(Tries(cells, moves), i, seen, cells, last)
    decreases |moves| - i
  {
    if i < |moves| {
      FixedTrialsStep(cells, last, moves, i, seen);
      TriesAt(cells, moves, i);
      if TryMove(cells, moves[i]).Ok? {
        FixedTrialsScan(cells, last, moves, i + 1, seen + [ChessAI.Fin(TryMove(cells, moves[i]).value.value)]);
      }
    }
  }

  /** A scan goes through exactly when every trial does, leaves the board and last move as
      they were, and lists the trials' values in order. */
  lemma {:induction false} ScanMeaning(tries: seq<Fallible<Trial>>, i: nat, seen: seq<ChessAI.Score>, cells: Cells, last: Option<Move>)
    requires i <= |tries| && |seen| == i
    ensures Scan(tries, i, seen, cells, last).Ok? <==> forall n :: i <= n < |tries| ==> tries[n].Ok?
    ensures Scan(tries, i, seen, cells, last).Ok? ==>
              var r := Scan(tries, i, seen, cells, last).value;
              && r.cells == cells && r.lastMove == last
              && |r.values| == |tries| && r.values[..i] == seen
              && forall n :: i <= n < |tries| ==> r.values[n] == ChessAI.Fin(tries[n].value.value)
    decreases |tries| - i
  {
    if i < |tries| && tries[i].Ok? {
      var seen' := seen + [ChessAI.Fin(tries[i].value.value)];
      ScanMeaning(tries, i + 1, seen', cells, last);
      var rest := Scan(tries, i + 1, seen', cells, last);
      if rest.Ok? {
        var r := rest.value;
        assert r.values[..i + 1] == seen';
        assert r.values[..i] == seen'[..i] == seen;
        assert r.values[i] == r.values[..i + 1][i] == seen'[i];
      }
    }
  }

  /** The choice made from a scan that goes through: none exactly when there is no trial,
      otherwise the first trial of least value. */
  lemma ScanChoice(tries: seq<Fallible<Trial>>, cells: Cells, last: Option<Move>)
    ensures var scan := Scan(tries, 0, [], cells, last);
            scan.Ok? ==>
              var pick := ChessAI.BestOf(scan.value.values);
              && (forall n :: 0 <= n < |tries| ==> tries[n].Ok?)
              && (pick.index.None? <==> tries == [])
              && (pick.index.Some? ==>
                    var i := pick.index.value;
                    && i < |tries|
                    && (forall n :: 0 <= n < i ==> tries[i].value.value < tries[n].value.value)
                    && (forall n :: i < n < |tries| ==> tries[i].value.value <= tries[n].value.value))
  {
    ScanMeaning(tries, 0, [], cells, last);
    var scan := Scan(tries, 0, [], cells, last);
    if scan.Ok? {
      var values := scan.value.values;
      ChessAI.BestOfMeaning(values);
      if tries != [] {
        assert values[0].Fin?;
      }
    }
  }

  /** The fixed search leaves the board as it found it, returns `null` exactly when Black has
      no move, and otherwise returns the first of Black's moves whose trial on the unchanged
      board has the least value. */
  lemma FixedBestMoveMeaning(cells: Cells, last: Option<Move>)
    ensures var moves := AllMoves(cells, Black);
            var tries := Tries(cells, moves);
            FixedBestMoveOf(cells, last).Ok? ==>
              var chosen := FixedBestMoveOf(cells, last).value;
              && chosen.cells == cells && chosen.lastMove == last
              && (forall n :: 0 <= n < |tries| ==> tries[n].Ok?)
              && (chosen.move.None? <==> moves == [])
              && (chosen.move.Some? ==>
                    exists i :: 0 <= i < |moves| && moves[i] == chosen.move.value
                      && (forall n :: 0 <= n < i ==> tries[i].value.value < tries[n].value.value)
                      && (forall n :: i < n < |moves| ==> tries[i].value.value <= tries[n].value.value))
  {
    FixedChoiceMeaning(cells, last, AllMoves(cells, Black));
  }

  /** The same for any list of moves. */
  lemma FixedChoiceMeaning(cells: Cells, last: Option<Move>, moves: seq<Move>)
    ensures var tries := Tries(cells, moves);
            FixedChoice(cells, last, moves).Ok? ==>
              var chosen := FixedChoice(cells, last, moves).value;
              && chosen.cells == cells && chosen.lastMove == last
              && (forall n :: 0 <= n < |tries| ==> tries[n].Ok?)
              && (chosen.move.None? <==> moves == [])
              && (chosen.move.Some? ==>
                    exists i :: 0 <= i < |moves| && moves[i] == chosen.move.value
                      && (forall n :: 0 <= n < i ==> tries[i].value.value < tries[n].value.value)
                      && (forall n :: i < n < |moves| ==> tries[i].value.value <= tries[n].value.value))
  {
    FixedTrialsScan(cells, last, moves, 0, []);
    ChoiceFromScan(cells, last, moves, Tries(cells, moves));
  }

  /** The choice of the corrected loop read off the scan of the trials `tries`. */
  lemma ChoiceFromScan(cells: Cells, last: Option<Move>, moves: seq<Move>, tries: seq<Fallible<Trial>>)
    requires |tries| == |moves|
    requires FixedTrialsFrom(cells, last, moves, 0, []) == Scan(tries, 0, [], cells, last)
    ensures FixedChoice(cells, last, moves).Ok? ==>
              var chosen := FixedChoice(cells, last, moves).value;
              && chosen.cells == cells && chosen.lastMove == last
              && (forall n :: 0 <= n < |tries| ==> tries[n].Ok?)
              && (chosen.move.None? <==> moves == [])
              && (chosen.move.Some? ==>
                    exists i :: 0 <= i < |moves| && moves[i] == chosen.move.value
                      && (forall n :: 0 <= n < i ==> tries[i].value.value < tries[n].value.value)
                      && (forall n :: i < n < |moves| ==> tries[i].value.value <= tries[n].value.value))
  {
    var r := FixedChoice(cells, last, moves);
    if r.Ok? {
      var scan := Scan(tries, 0, [], cells, last);
      ScanMeaning(tries, 0, [], cells, last);
      ScanChoice(tries, cells, last);
      var pick := ChessAI.BestOf(scan.value.values);
      assert r.value.cells == scan.value.cells && r.value.lastMove == scan.value.lastMove;
      assert r.value.move == if pick.index.Some? then Some(moves[pick.index.value]) else None;
      if pick.index.Some? {
        var i := pick.index.value;
        assert moves[i] == r.value.move.value;
      }
    }
  }
}
