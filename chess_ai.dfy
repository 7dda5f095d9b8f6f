/**
  The computer player of the main engine (`class AI`): a material-plus-square-table
  evaluation, the list of every move of one side, a depth-limited minimax with alpha-beta
  cut-offs, and Black's choice of move.  The AI object only holds constant tables, so they are
  module constants here and its methods take the board and the precomputed move tables.

  The search moves pieces on the one shared board and takes them back.  Every move generator
  may flag en-passant tiles and every `unmakeMove` clears all flags and leaves `lastMove` at
  the move it undid, so each specification function returns the position it leaves behind
  and the next step reads that position, exactly as the source's loops do.
 */
module ChessAI {
  import opened ChessTypes
  import opened MoveTables
  import opened PieceRules
  import opened ChessBoard
  import opened BoardStatus
  import opened BoardObject

  // ---------------------------------------------------------------- evaluateBoard

  /** An 8 x 8 table of square bonuses, indexed [row][col] from White's side. */
  type Table = t: seq<seq<int>> | |t| == 8 && forall r :: 0 <= r < 8 ==> |t[r]| == 8
    witness seq(8, _ => seq(8, _ => 0))

  /** `pieceValues`: the material value of each kind. */
  function PieceValue(k: Kind): int {
    match k
    case Pawn => 10
    case Knight => 30
    case Bishop => 30
    case Rook => 50
    case Queen => 90
    case King => 900
  }

  const PawnTable: Table := [
    [0, 0, 0, 0, 0, 0, 0, 0],
    [50, 50, 50, 50, 50, 50, 50, 50],
    [10, 10, 20, 30, 30, 20, 10, 10],
    [5, 5, 10, 25, 25, 10, 5, 5],
    [0, 0, 0, 20, 20, 0, 0, 0],
    [5, -5, -10, 0, 0, -10, -5, 5],
    [5, 10, 10, -20, -20, 10, 10, 5],
    [0, 0, 0, 0, 0, 0, 0, 0]]

  const KnightTable: Table := [
    [-50, -40, -30, -30, -30, -30, -40, -50],
    [-40, -20, 0, 0, 0, 0, -20, -40],
    [-30, 0, 10, 15, 15, 10, 0, -30],
    [-30, 5, 15, 20, 20, 15, 5, -30],
    [-30, 0, 15, 20, 20, 15, 0, -30],
    [-30, 5, 10, 15, 15, 10, 5, -30],
    [-40, -20, 0, 5, 5, 0, -20, -40],
    [-50, -40, -30, -30, -30, -30, -40, -50]]

  const BishopTable: Table := [
    [-20, -10, -10, -10, -10, -10, -10, -20],
    [-10, 0, 0, 0, 0, 0, 0, -10],
    [-10, 0, 5, 10, 10, 5, 0, -10],
    [-10, 5, 5, 10, 10, 5, 5, -10],
    [-10, 0, 10, 10, 10, 10, 0, -10],
    [-10, 10, 10, 10, 10, 10, 10, -10],
    [-10, 5, 0, 0, 0, 0, 5, -10],
    [-20, -10, -10, -10, -10, -10, -10, -20]]

  const KingTable: Table := [
    [-30, -40, -40, -50, -50, -40, -40, -30],
    [-30, -40, -40, -50, -50, -40, -40, -30],
    [-30, -40, -40, -50, -50, -40, -40, -30],
    [-30, -40, -40, -50, -50, -40, -40, -30],
    [-20, -30, -30, -40, -40, -30, -30, -20],
    [-10, -20, -20, -20, -20, -20, -20, -10],
    [20, 20, 0, 0, 0, 0, 20, 20],
    [20, 30, 10, 0, 0, 10, 30, 20]]

  /** `getPiecePositionValue`: the table bonus of a piece on (row, col); a black piece reads
      its table upside down, and rooks and queens have no table. */
  function PositionValue(p: Piece, row: int, col: int): int
    requires InBounds(row, col)
  {
    var r := if p.color == Black then 7 - row else row;
    match p.kind
    case Pawn => PawnTable[r][col]
    case Knight => KnightTable[r][col]
    case Bishop => BishopTable[r][col]
    case King => KingTable[r][col]
    case _ => 0
  }

  /** What square (i, j) adds to the score: the piece's value and bonus, counted for White
      and against Black. */
  function SquareScore(cells: Cells, i: int, j: int): int
    requires InBounds(i, j)
  {
    match PieceAt(cells, i, j)
    case None => 0
    case Some(p) =>
      var value := PieceValue(p.kind) + PositionValue(p, i, j);
      if p.color == White then value else -value
  }

  /** The first j squares of row i. */
  function RowScore(cells: Cells, i: int, j: int): int
    requires 0 <= i < 8 && 0 <= j <= 8
  {
    if j == 0 then 0 else RowScore(cells, i, j - 1) + SquareScore(cells, i, j - 1)
  }

  /** The first i rows. */
  function RowsScore(cells: Cells, i: int): int
    requires 0 <= i <= 8
  {
    if i == 0 then 0 else RowsScore(cells, i - 1) + RowScore(cells, i - 1, 8)
  }

  /** `evaluateBoard`: the sum of every square's score. */
  function Evaluate(cells: Cells): int {
    RowsScore(cells, 8)
  }

  /** The board seen from the other side: row r takes row 7 - r with the colours swapped. */
  function MirrorTile(t: Tile): Tile {
    match t.piece
    case None => t
    case Some(p) => Tile(Some(p.(color := Opponent(p.color), row := 7 - p.row)), t.enPassant)
  }

  function Mirror(cells: Cells): (m: Cells)
    ensures forall r, c :: InBounds(r, c) ==> m[Idx(r, c)] == MirrorTile(cells[Idx(7 - r, c)])
  {
    IdxRowCol();
    seq(64, k requires 0 <= k < 64 => MirrorTile(cells[Idx(7 - k / 8, k % 8)]))
  }

  lemma {:induction false} OpposedRow(a: Cells, b: Cells, i: int, j: int)
    requires 0 <= i < 8 && 0 <= j <= 8
    requires forall j' :: 0 <= j' < 8 ==> SquareScore(a, i, j') == -SquareScore(b, 7 - i, j')
    ensures RowScore(a, i, j) == -RowScore(b, 7 - i, j)
  {
    if j > 0 {
      OpposedRow(a, b, i, j - 1);
    }
  }

  /** The first n rows of `a` score the opposite of the last n rows of `b`. */
  lemma {:induction false} OpposedRows(a: Cells, b: Cells, n: int)
    requires 0 <= n <= 8
    requires forall i, j :: InBounds(i, j) ==> SquareScore(a, i, j) == -SquareScore(b, 7 - i, j)
    ensures RowsScore(a, n) == RowsScore(b, 8 - n) - RowsScore(b, 8)
  {
    if n > 0 {
      OpposedRows(a, b, n - 1);
      OpposedRow(a, b, n - 1, 8);
    }
  }

  /** When every square of `a` scores the opposite of the same column on the facing row of
      `b`, the two evaluations are opposite. */
  lemma OpposedEvaluate(a: Cells, b: Cells)
    requires forall i, j :: InBounds(i, j) ==> SquareScore(a, i, j) == -SquareScore(b, 7 - i, j)
    ensures Evaluate(a) == -Evaluate(b)
  {
    OpposedRows(a, b, 8);
  }

  /** The evaluation is symmetric between the sides: turning the board around and swapping
      the colours negates the score. */
  lemma EvaluateMirror(cells: Cells)
    ensures Evaluate(Mirror(cells)) == -Evaluate(cells)
  {
    forall i, j | InBounds(i, j)
      ensures SquareScore(Mirror(cells), i, j) == -SquareScore(cells, 7 - i, j)
    {
      assert Mirror(cells)[Idx(i, j)] == MirrorTile(cells[Idx(7 - i, j)]);
    }
    OpposedEvaluate(Mirror(cells), cells);
  }

  /** The starting position is level. */
  lemma EvaluateInitial()
    ensures Evaluate(InitialCells()) == 0
  {
    InitialScoresOpposed();
    OpposedEvaluate(InitialCells(), InitialCells());
  }

  /** Each square of the starting grid scores the opposite of the facing square. */
  lemma InitialScoresOpposed()
    ensures forall i, j :: InBounds(i, j) ==>
              SquareScore(InitialCells(), i, j) == -SquareScore(InitialCells(), 7 - i, j)
  {
    var cells := InitialCells();
    forall i, j | InBounds(i, j)
      ensures SquareScore(cells, i, j) == -SquareScore(cells, 7 - i, j)
    {
      assert PieceAt(cells, i, j).Some? <==> PieceAt(cells, 7 - i, j).Some?;
      FacingSquares(cells, i, j);
    }
  }

  /** Two facing squares holding the same kind in opposite colours, or both empty, score
      opposite amounts: the black table is read upside down. */
  lemma FacingSquares(cells: Cells, i: int, j: int)
    requires InBounds(i, j)
    requires PieceAt(cells, i, j).Some? <==> PieceAt(cells, 7 - i, j).Some?
    requires PieceAt(cells, i, j).Some? ==>
               && PieceAt(cells, 7 - i, j).value.kind == PieceAt(cells, i, j).value.kind
               && PieceAt(cells, 7 - i, j).value.color == Opponent(PieceAt(cells, i, j).value.color)
    ensures SquareScore(cells, i, j) == -SquareScore(cells, 7 - i, j)
  {
  }

  /** `evaluateBoard(board)`: the two nested loops over the grid. */
  method EvaluateBoard(board: Board) returns (score: int)
    ensures score == Evaluate(board.cells)
  {
    var grid := board.cells;
    score := 0;
    for i := 0 to 8
      invariant score == RowsScore(grid, i)
    {
      for j := 0 to 8
        invariant score == RowsScore(grid, i) + RowScore(grid, i, j)
      {
        ghost var old_score := score;
        var piece := grid[Idx(i, j)].piece;
        if piece.Some? {
          var value := PieceValue(piece.value.kind) + PositionValue(piece.value, i, j);
          score := score + if piece.value.color == White then value else -value;
        }
        assert score == old_score + SquareScore(grid, i, j);
      }
    }
  }

  // ---------------------------------------------------------------- getAllMoves

  /** A list of move requests and the position left behind. */
  datatype MoveList = MoveList(moves: seq<MoveReq>, pos: Position)

  /** The requests `getAllMoves` pushes for the piece `id` on (i, j), one per target. */
  function Requests(id: nat, i: int, j: int, ts: seq<Coord>): (ms: seq<MoveReq>)
    ensures |ms| == |ts|
    ensures forall n :: 0 <= n < |ts| ==> ms[n] == MoveTo(Some(id), i, j, ts[n])
  {
    seq(|ts|, n requires 0 <= n < |ts| => MoveTo(Some(id), i, j, ts[n]))
  }

  /** `getAllMoves(board, color)`: every move of every piece of `color`, square by square in
      row-major order, each naming its piece. */
  ghost function AllMoves(pos: Position, color: Color): (r: MoveList)
    requires Valid(pos.cells)
    ensures Valid(r.pos.cells)
  {
    AllMovesFrom(pos, color, 0)
  }

  /** The walk of `getAllMoves` from flat index k on, reading the grid as the generators
      before it left it. */
  ghost function AllMovesFrom(pos: Position, color: Color, k: nat): (r: MoveList)
    requires Valid(pos.cells) && k <= 64
    ensures Valid(r.pos.cells)
    decreases 64 - k
  {
    if k == 64 then MoveList([], pos)
    else match OwnPieceAt(pos.cells, k, color)
      case None => AllMovesFrom(pos, color, k + 1)
      case Some(p) =>
        OwnPieceHome(pos.cells, k, color);
        var gen := ValidMovesOf(pos, p);
        GeneratedValid(pos, p);
        var rest := AllMovesFrom(Position(gen.cells, pos.lastMove), color, k + 1);
        MoveList(Requests(p.id, Row(k), Col(k), gen.moves) + rest.moves, rest.pos)
  }

  /** A square without a piece of the side passes the `getAllMoves` walk on unchanged. */
  lemma AllMovesSkip(pos: Position, color: Color, k: nat)
    requires Valid(pos.cells) && k < 64 && OwnPieceAt(pos.cells, k, color).None?
    ensures AllMovesFrom(pos, color, k) == AllMovesFrom(pos, color, k + 1)
  {
  }

  /** A square holding a piece of the side: the walk lists that piece's requests, then goes
      on from the grid its generator left. */
  lemma AllMovesUnfold(pos: Position, color: Color, k: nat, p: Piece, moves: seq<Coord>, after: Position)
    requires Valid(pos.cells) && k < 64 && OwnPieceAt(pos.cells, k, color) == Some(p)
    requires InBounds(p.row, p.col)
    requires Generated(moves, after.cells) == ValidMovesOf(pos, p) && after.lastMove == pos.lastMove
    ensures Valid(after.cells)
    ensures var rest := AllMovesFrom(after, color, k + 1);
            AllMovesFrom(pos, color, k) == MoveList(Requests(p.id, Row(k), Col(k), moves) + rest.moves, rest.pos)
  {
    OwnPieceHome(pos.cells, k, color);
    GeneratedValid(pos, p);
  }

  /** Move m is one `getAllMoves` may list from flat index k on: a piece of `color` stands on
      its start square, m names that piece, and the piece's generator offers m's end square. */
  ghost predicate Offered(pos: Position, color: Color, k: nat, m: MoveReq) {
    && InBounds(m.startRow, m.startCol) && k <= Idx(m.startRow, m.startCol)
    && var p := PieceAt(pos.cells, m.startRow, m.startCol);
       && p.Some? && p.value.color == color && m.mover == Some(p.value.id)
       && InBounds(p.value.row, p.value.col)
       && Coord(m.endRow, m.endCol) in ValidMovesOf(pos, p.value).moves
  }

  lemma OfferedStep(pos: Position, color: Color, k: nat, m: MoveReq)
    requires Valid(pos.cells) && k < 64
    ensures Offered(pos, color, k, m) <==>
              Offered(pos, color, k + 1, m) ||
              (Offered(pos, color, k, m) && m.startRow == Row(k) && m.startCol == Col(k))
  {
  }

  /** The walk lists no move exactly when no piece of the side from k on has a move, and it
      leaves every piece and the last move as they were. */
  lemma {:induction false} AllMovesKeep(pos: Position, color: Color, k: nat, orig: Position)
    requires Valid(pos.cells) && Valid(orig.cells) && k <= 64
    requires SamePieces(pos.cells, orig.cells) && pos.lastMove == orig.lastMove
    ensures AllMovesFrom(pos, color, k).moves == [] <==> StuckFrom(orig, color, k)
    ensures SamePieces(AllMovesFrom(pos, color, k).pos.cells, orig.cells)
    ensures AllMovesFrom(pos, color, k).pos.lastMove == orig.lastMove
    decreases 64 - k
  {
    if k < 64 {
      OwnPieceSame(pos.cells, orig.cells, k, color);
      StuckStep(orig, color, k);
      match OwnPieceAt(pos.cells, k, color)
      case None =>
        AllMovesKeep(pos, color, k + 1, orig);
      case Some(p) =>
        OwnPieceHome(pos.cells, k, color);
        var gen := ValidMovesOf(pos, p);
        GeneratedValid(pos, p);
        ValidMovesKeepPieces(pos, p);
        ValidMovesSame(pos, orig, p);
        var next := Position(gen.cells, pos.lastMove);
        AllMovesKeep(next, color, k + 1, orig);
        var rest := AllMovesFrom(next, color, k + 1);
        var here := Requests(p.id, Row(k), Col(k), gen.moves);
        assert AllMovesFrom(pos, color, k) == MoveList(here + rest.moves, rest.pos);
        assert here + rest.moves == [] <==> gen.moves == [] && rest.moves == [];
    }
  }

  /** The requests for the piece of the side on flat index k are the offered moves that start
      there. */
  lemma RequestsOffered(orig: Position, color: Color, k: nat, p: Piece, m: MoveReq)
    requires Valid(orig.cells) && k < 64 && OwnPieceAt(orig.cells, k, color) == Some(p)
    ensures InBounds(p.row, p.col)
    ensures m in Requests(p.id, Row(k), Col(k), ValidMovesOf(orig, p).moves) <==>
              Offered(orig, color, k, m) && m.startRow == Row(k) && m.startCol == Col(k)
  {
    OwnPieceHome(orig.cells, k, color);
    var ts := ValidMovesOf(orig, p).moves;
    var here := Requests(p.id, Row(k), Col(k), ts);
    if m in here {
      var n :| 0 <= n < |here| && here[n] == m;
      assert Coord(m.endRow, m.endCol) == ts[n];
    }
    if Offered(orig, color, k, m) && m.startRow == Row(k) && m.startCol == Col(k) {
      var n :| 0 <= n < |ts| && ts[n] == Coord(m.endRow, m.endCol);
      assert here[n] == m;
    }
  }

  /** The walk from flat index k lists exactly the offered moves. */
  lemma {:induction false} AllMovesMembers(pos: Position, color: Color, k: nat, orig: Position, m: MoveReq)
    requires Valid(pos.cells) && Valid(orig.cells) && k <= 64
    requires SamePieces(pos.cells, orig.cells) && pos.lastMove == orig.lastMove
    ensures m in AllMovesFrom(pos, color, k).moves <==> Offered(orig, color, k, m)
    decreases 64 - k
  {
    if k < 64 {
      OwnPieceSame(pos.cells, orig.cells, k, color);
      OfferedStep(orig, color, k, m);
      match OwnPieceAt(pos.cells, k, color)
      case None =>
        AllMovesMembers(pos, color, k + 1, orig, m);
      case Some(p) =>
        OwnPieceHome(pos.cells, k, color);
        var gen := ValidMovesOf(pos, p);
        GeneratedValid(pos, p);
        ValidMovesKeepPieces(pos, p);
        ValidMovesSame(pos, orig, p);
        AllMovesMembers(Position(gen.cells, pos.lastMove), color, k + 1, orig, m);
        RequestsOffered(orig, color, k, p, m);
    }
  }

  /** A move `getAllMoves` lists can be made: on a consistent board whose unmoved pieces are
      at home, it satisfies what `movePiece` needs. */
  lemma OfferedPlayable(pos: Position, color: Color, m: MoveReq)
    requires Valid(pos.cells) && KingsHome(pos.cells) && Offered(pos, color, 0, m)
    ensures Playable(pos.cells, m)
  {
    var p := PieceAt(pos.cells, m.startRow, m.startCol).value;
    GeneratedPlayable(pos, p, Coord(m.endRow, m.endCol), m.mover);
  }

  /** `getKing` reads the pieces only. */
  lemma {:induction false} FindKingFromSame(a: Cells, b: Cells, color: Color, k: nat)
    requires SamePieces(a, b) && k <= 64
    ensures FindKingFrom(a, color, k) == FindKingFrom(b, color, k)
    decreases 64 - k
  {
    if k < 64 {
      SamePieceAt(a, b, k);
      FindKingFromSame(a, b, color, k + 1);
      assert KingOf(a[k], color) == KingOf(b[k], color);
    }
  }

  /** Boards with the same pieces hold the same piece on each flat index. */
  lemma SamePieceAt(a: Cells, b: Cells, k: nat)
    requires SamePieces(a, b) && k < 64
    ensures a[k].piece == b[k].piece
  {
    assert InBounds(Row(k), Col(k)) && Idx(Row(k), Col(k)) == k;
  }

  /** `getAllMoves(board, color)` on the board object: the list and the board agree with
      `AllMoves`. */
  method GetAllMoves(board: Board, color: Color, vm: ValidMoves) returns (allMoves: seq<MoveReq>)
    requires Valid(board.cells) && vm.Precomputed()
    modifies board
    ensures MoveList(allMoves, board.Pos()) == AllMoves(old(board.Pos()), color)
  {
    allMoves := [];
    ghost var goal := AllMoves(old(board.Pos()), color);
    for i := 0 to 8
      invariant Valid(board.cells)
      invariant allMoves + AllMovesFrom(board.Pos(), color, 8 * i).moves == goal.moves
      invariant AllMovesFrom(board.Pos(), color, 8 * i).pos == goal.pos
    {
      ghost var before := allMoves;
      var pushed := RowMoves(board, i, color, vm);
      allMoves := allMoves + pushed;
      assert allMoves + AllMovesFrom(board.Pos(), color, 8 * (i + 1)).moves ==
             before + (pushed + AllMovesFrom(board.Pos(), color, 8 * (i + 1)).moves);
    }
    assert AllMovesFrom(board.Pos(), color, 64) == MoveList([], board.Pos());
    assert allMoves == goal.moves && board.Pos() == goal.pos;
  }

  /** The inner loop of `getAllMoves` over row i. */
  method RowMoves(board: Board, i: int, color: Color, vm: ValidMoves) returns (pushed: seq<MoveReq>)
    requires 0 <= i < 8 && Valid(board.cells) && vm.Precomputed()
    modifies board
    ensures Valid(board.cells)
    ensures var spec := AllMovesFrom(old(board.Pos()), color, 8 * i);
            var rest := AllMovesFrom(board.Pos(), color, 8 * (i + 1));
            pushed + rest.moves == spec.moves && rest.pos == spec.pos
  {
    ghost var goal := AllMovesFrom(old(board.Pos()), color, 8 * i);
    pushed := [];
    for j := 0 to 8
      invariant Valid(board.cells)
      invariant var rest := AllMovesFrom(board.Pos(), color, 8 * i + j);
                pushed + rest.moves == goal.moves && rest.pos == goal.pos
    {
      ghost var mid := AllMovesFrom(board.Pos(), color, 8 * i + j);
      var here := SquareMoves(board, i, j, color, vm);
      ghost var rest := AllMovesFrom(board.Pos(), color, 8 * i + j + 1);
      PrefixStep(pushed, here, rest.moves, mid.moves, goal.moves);
      pushed := pushed + here;
    }
    assert 8 * i + 8 == 8 * (i + 1);
  }

  /** The body of the loops of `getAllMoves` for square (i, j): the requests for the moves of
      the piece of `color` there, if any. */
  method SquareMoves(board: Board, i: int, j: int, color: Color, vm: ValidMoves) returns (pushed: seq<MoveReq>)
    requires InBounds(i, j) && Valid(board.cells) && vm.Precomputed()
    modifies board
    ensures Valid(board.cells)
    ensures var spec := AllMovesFrom(old(board.Pos()), color, 8 * i + j);
            var rest := AllMovesFrom(board.Pos(), color, 8 * i + j + 1);
            pushed + rest.moves == spec.moves && rest.pos == spec.pos
  {
    ghost var k := 8 * i + j;
    OwnPieceAtSquare(board.cells, i, j, color);
    var piece := board.cells[Idx(i, j)].piece;
    if piece.Some? && piece.value.color == color {
      ghost var pos := board.Pos();
      var moves := board.GetValidMoves(piece.value, vm);
      AllMovesUnfold(pos, color, k, piece.value, moves, board.Pos());
      pushed := PushRequests(piece.value.id, i, j, moves);
    } else {
      AllMovesSkip(board.Pos(), color, k);
      pushed := [];
    }
  }

  /** The `forEach` of `getAllMoves` over one piece's targets: a request per target, in order. */
  method PushRequests(id: nat, i: int, j: int, moves: seq<Coord>) returns (pushed: seq<MoveReq>)
    ensures pushed == Requests(id, i, j, moves)
  {
    pushed := [];
    for n := 0 to |moves|
      invariant |pushed| == n
      invariant forall q :: 0 <= q < n ==> pushed[q] == MoveTo(Some(id), i, j, moves[q])
    {
      pushed := pushed + [MoveReq(Some(id), i, j, moves[n].row, moves[n].col)];
    }
  }

  // ---------------------------------------------------------------- minimax

  /** A search value: a number, or one of JavaScript's two infinities. */
  datatype Score = NegInf | Fin(n: int) | PosInf

  /** JavaScript's `a < b` on search values. */
  predicate Below(a: Score, b: Score) {
    match a
    case NegInf => b != NegInf
    case Fin(x) => b == PosInf || (b.Fin? && x < b.n)
    case PosInf => false
  }

  /** `Math.max(a, b)`. */
  function Max(a: Score, b: Score): (r: Score)
    ensures r == a || r == b
    ensures !Below(r, a) && !Below(r, b)
  {
    if Below(a, b) then b else a
  }

  /** `Math.min(a, b)`. */
  function Min(a: Score, b: Score): (r: Score)
    ensures r == a || r == b
    ensures !Below(a, r) && !Below(b, r)
  {
    if Below(b, a) then b else a
  }

  /** The side to move: White when maximizing. */
  function Side(maximizing: bool): Color {
    if maximizing then White else Black
  }

  /** A search value and the position the search leaves behind. */
  datatype Searched = Searched(value: Score, pos: Position)

  /** `minimax(board, depth, alpha, beta, maximizingPlayer)`: the evaluation at depth 0;
      otherwise the side's moves, and with none the lost (-∞ for White, +∞ for Black) or
      drawn (0) value, throwing when that side has no king; otherwise the alpha-beta loop. */
  ghost function MinimaxOf(pos: Position, depth: nat, alpha: Score, beta: Score, maximizing: bool): (r: Fallible<Searched>)
    requires Valid(pos.cells)
    ensures r.Ok? ==> Valid(r.value.pos.cells)
    decreases depth, 1, 0
  {
    if depth == 0 then Ok(Searched(Fin(Evaluate(pos.cells)), pos))
    else
      var color := Side(maximizing);
      var all := AllMoves(pos, color);
      if |all.moves| == 0 then
        match FindKing(all.pos.cells, color)
        case None => Crashed
        case Some(king) =>
          var lost := if maximizing then NegInf else PosInf;
          Ok(Searched(if Attacked(all.pos.cells, king.row, king.col, color) then lost else Fin(0), all.pos))
      else SearchFrom(all.pos, depth - 1, alpha, beta, maximizing, all.moves, 0, if maximizing then NegInf else PosInf)
  }

  /** The loop of `minimax` from move i on, `best` being the best value so far: make the move,
      search one ply less for the other side, take the move back, fold the value into `best`
      and into alpha (maximizing) or beta (minimizing), and stop once beta <= alpha. */
  ghost function SearchFrom(pos: Position, below: nat, alpha: Score, beta: Score, maximizing: bool,
                            moves: seq<MoveReq>, i: nat, best: Score): (r: Fallible<Searched>)
    requires Valid(pos.cells) && i <= |moves|
    ensures r.Ok? ==> Valid(r.value.pos.cells)
    decreases below, 2, |moves| - i
  {
    if i == |moves| then Ok(Searched(best, pos))
    else match MakeMove(pos, moves[i])
      case Crashed => Crashed
      case Ok(made) =>
        MakeMoveValid(pos, moves[i]);
        match MinimaxOf(made.pos, below, alpha, beta, !maximizing)
        case Crashed => Crashed
        case Ok(child) =>
          match Unmake(child.pos, made.undo)
          case Crashed => Crashed
          case Ok(back) =>
            UnmakeValid(child.pos, made.undo);
            var v := child.value;
            var alpha' := if maximizing then Max(alpha, v) else alpha;
            var beta' := if maximizing then beta else Min(beta, v);
            var best' := if maximizing then Max(best, v) else Min(best, v);
            if !Below(alpha', beta') then Ok(Searched(best', back))
            else SearchFrom(back, below, alpha', beta', maximizing, moves, i + 1, best')
  }

  /** One step of the loop of `minimax` once move i has been made, searched and taken back:
      the loop either stops there or goes on from the position after the take-back. */
  lemma SearchStep(pos: Position, below: nat, alpha: Score, beta: Score, maximizing: bool,
                   moves: seq<MoveReq>, i: nat, best: Score)
    requires Valid(pos.cells) && i < |moves|
    requires MakeMove(pos, moves[i]).Ok?
    requires Valid(MakeMove(pos, moves[i]).value.pos.cells)
    requires MinimaxOf(MakeMove(pos, moves[i]).value.pos, below, alpha, beta, !maximizing).Ok?
    requires var made := MakeMove(pos, moves[i]).value;
             Unmake(MinimaxOf(made.pos, below, alpha, beta, !maximizing).value.pos, made.undo).Ok?
    ensures var made := MakeMove(pos, moves[i]).value;
            var child := MinimaxOf(made.pos, below, alpha, beta, !maximizing).value;
            var back := Unmake(child.pos, made.undo).value;
            var v := child.value;
            var alpha' := if maximizing then Max(alpha, v) else alpha;
            var beta' := if maximizing then beta else Min(beta, v);
            var best' := if maximizing then Max(best, v) else Min(best, v);
            && Valid(back.cells)
            && SearchFrom(pos, below, alpha, beta, maximizing, moves, i, best) ==
                 if !Below(alpha', beta') then Ok(Searched(best', back))
                 else SearchFrom(back, below, alpha', beta', maximizing, moves, i + 1, best')
  {
    var made := MakeMove(pos, moves[i]).value;
    MakeMoveValid(pos, moves[i]);
    var child := MinimaxOf(made.pos, below, alpha, beta, !maximizing).value;
    UnmakeValid(child.pos, made.undo);
  }

  /** A method's answer and final board follow a search specification: it throws when the
      specification does, and otherwise returns its value and leaves its position. */
  ghost predicate Follows(res: Fallible<Score>, spec: Fallible<Searched>, now: Position) {
    && (spec.Crashed? ==> res.Crashed?)
    && (spec.Ok? ==> res == Ok(spec.value.value) && now == spec.value.pos)
  }

  /** `minimax` on the board object: it throws exactly when `MinimaxOf` does, and otherwise
      returns its value and leaves the board where `MinimaxOf` says. */
  method Minimax(board: Board, vm: ValidMoves, depth: nat, alpha: Score, beta: Score, maximizing: bool)
    returns (res: Fallible<Score>)
    requires Valid(board.cells) && vm.Precomputed()
    modifies board
    ensures Follows(res, MinimaxOf(old(board.Pos()), depth, alpha, beta, maximizing), board.Pos())
    decreases depth, 2
  {
    if depth == 0 {
      var score := EvaluateBoard(board);
      return Ok(Fin(score));
    }
    var color := if maximizing then White else Black;
    ghost var pos := board.Pos();
    var allMoves := GetAllMoves(board, color, vm);
    if |allMoves| == 0 {
      res := NoMoveValue(board, vm, pos, depth, alpha, beta, maximizing);
    } else {
      res := SearchMoves(board, vm, pos, depth, alpha, beta, maximizing, allMoves);
    }
  }

  /** The branch of `minimax` for a side with no move: lost when its king is attacked,
      drawn otherwise, and a throw when it has no king. */
  method NoMoveValue(board: Board, vm: ValidMoves, ghost pos: Position, depth: nat, alpha: Score, beta: Score,
                     maximizing: bool) returns (res: Fallible<Score>)
    requires Valid(pos.cells) && depth > 0 && vm.Precomputed()
    requires AllMoves(pos, Side(maximizing)).moves == [] && board.Pos() == AllMoves(pos, Side(maximizing)).pos
    ensures Follows(res, MinimaxOf(pos, depth, alpha, beta, maximizing), board.Pos())
  {
    var color := if maximizing then White else Black;
    var king := board.GetKing(color);
    if king.None? {
      return Crashed;
    }
    var check := board.IsCheck(king.value.row, king.value.col, color, vm);
    if check {
      return Ok(if maximizing then NegInf else PosInf);
    }
    return Ok(Fin(0));
  }

  /** The loop of `minimax` over the side's moves, from `best` at -∞ (maximizing) or +∞,
      searching each one ply less deep. */
  method SearchMoves(board: Board, vm: ValidMoves, ghost pos: Position, depth: nat, alpha: Score, beta: Score,
                     maximizing: bool, allMoves: seq<MoveReq>) returns (res: Fallible<Score>)
    requires Valid(pos.cells) && depth > 0 && vm.Precomputed()
    requires MoveList(allMoves, board.Pos()) == AllMoves(pos, Side(maximizing)) && allMoves != []
    modifies board
    ensures Follows(res, MinimaxOf(pos, depth, alpha, beta, maximizing), board.Pos())
    decreases depth, 1
  {
    var below: nat := depth - 1;
    MinimaxSearches(pos, below, alpha, beta, maximizing);
    var best := if maximizing then NegInf else PosInf;
    var a, b := alpha, beta;
    ghost var goal := SearchFrom(board.Pos(), below, a, b, maximizing, allMoves, 0, best);
    for n := 0 to |allMoves|
      invariant Valid(board.cells)
      invariant SearchFrom(board.Pos(), below, a, b, maximizing, allMoves, n, best) == goal
    {
      ghost var here := board.Pos();
      var moveData := board.MovePiece(allMoves[n]);
      if moveData.Crashed? {
        return Crashed;
      }
      MakeMoveValid(here, allMoves[n]);
      var evaluation := Minimax(board, vm, below, a, b, !maximizing);
      if evaluation.Crashed? {
        return Crashed;
      }
      var undone := board.UnmakeMove(moveData.value);
      if !undone {
        return Crashed;
      }
      SearchStep(here, below, a, b, maximizing, allMoves, n, best);
      if maximizing {
        best := Max(best, evaluation.value);
        a := Max(a, evaluation.value);
      } else {
        best := Min(best, evaluation.value);
        b := Min(b, evaluation.value);
      }
      if !Below(a, b) {
        return Ok(best);
      }
    }
    return Ok(best);
  }

  /** At depth 0 `minimax` is the evaluation of the board.  A side with no move gets -∞ (White)
      or +∞ (Black) when its king is attacked and 0 otherwise, and the search throws when that
      side has no king. */
  lemma MinimaxEnds(pos: Position, depth: nat, alpha: Score, beta: Score, maximizing: bool)
    requires Valid(pos.cells)
    ensures depth == 0 ==> MinimaxOf(pos, depth, alpha, beta, maximizing) == Ok(Searched(Fin(Evaluate(pos.cells)), pos))
    ensures depth > 0 && StuckFrom(pos, Side(maximizing), 0) ==>
              match FindKing(pos.cells, Side(maximizing))
              case None => MinimaxOf(pos, depth, alpha, beta, maximizing).Crashed?
              case Some(king) =>
                && MinimaxOf(pos, depth, alpha, beta, maximizing).Ok?
                && MinimaxOf(pos, depth, alpha, beta, maximizing).value.value ==
                     if Attacked(pos.cells, king.row, king.col, Side(maximizing))
                     then (if maximizing then NegInf else PosInf) else Fin(0)
  {
    if depth > 0 {
      var color := Side(maximizing);
      var all := AllMoves(pos, color);
      AllMovesKeep(pos, color, 0, pos);
      FindKingFromSame(all.pos.cells, pos.cells, color, 0);
      if FindKing(pos.cells, color).Some? {
        var king := FindKing(pos.cells, color).value;
        AttackedSame(all.pos.cells, pos.cells, king.row, king.col, color);
      }
    }
  }

  /** With no move for the side, `minimax` reports an infinity exactly when `isCheckmate`
      would say the side is mated, and 0 exactly when `isStalemate` would say stalemate. */
  lemma MinimaxMateOrDraw(pos: Position, depth: nat, alpha: Score, beta: Score, maximizing: bool)
    requires Valid(pos.cells) && depth > 0
    requires StuckFrom(pos, Side(maximizing), 0) && FindKing(pos.cells, Side(maximizing)).Some?
    ensures Checkmate(pos, Side(maximizing)).Ok? && Stalemate(pos, Side(maximizing)).Ok?
    ensures MinimaxOf(pos, depth, alpha, beta, maximizing).Ok?
    ensures MinimaxOf(pos, depth, alpha, beta, maximizing).value.value != Fin(0) <==>
              Checkmate(pos, Side(maximizing)).value.holds
    ensures MinimaxOf(pos, depth, alpha, beta, maximizing).value.value == Fin(0) <==>
              Stalemate(pos, Side(maximizing)).value.holds
  {
    MinimaxEnds(pos, depth, alpha, beta, maximizing);
    MateOrStalemate(pos, Side(maximizing));
    CheckmateMeaning(pos, Side(maximizing));
  }

  /** On a consistent board whose unmoved pieces are at home, a search that returns leaves
      every piece where it found it: each move it makes it takes back. */
  lemma {:induction false} MinimaxKeepsPieces(pos: Position, depth: nat, alpha: Score, beta: Score, maximizing: bool)
    requires Valid(pos.cells) && KingsHome(pos.cells)
    ensures MinimaxOf(pos, depth, alpha, beta, maximizing).Ok? ==>
              SamePieces(MinimaxOf(pos, depth, alpha, beta, maximizing).value.pos.cells, pos.cells)
    decreases depth, 1, 0
  {
    if depth > 0 {
      var color := Side(maximizing);
      var all := AllMoves(pos, color);
      AllMovesKeep(pos, color, 0, pos);
      if |all.moves| > 0 {
        forall n | 0 <= n < |all.moves|
          ensures Playable(pos.cells, all.moves[n])
        {
          AllMovesMembers(pos, color, 0, pos, all.moves[n]);
          OfferedPlayable(pos, color, all.moves[n]);
        }
        var below: nat := depth - 1;
        MinimaxSearches(pos, below, alpha, beta, maximizing);
        SearchKeepsPieces(all.pos, below, alpha, beta, maximizing, all.moves, 0,
                          if maximizing then NegInf else PosInf, pos.cells);
      }
    }
  }

  /** One ply above `below`, a side with moves searches them in the order `getAllMoves` lists them. */
  lemma MinimaxSearches(pos: Position, below: nat, alpha: Score, beta: Score, maximizing: bool)
    requires Valid(pos.cells) && AllMoves(pos, Side(maximizing)).moves != []
    ensures var all := AllMoves(pos, Side(maximizing));
            MinimaxOf(pos, below + 1, alpha, beta, maximizing) ==
              SearchFrom(all.pos, below, alpha, beta, maximizing, all.moves, 0, if maximizing then NegInf else PosInf)
  {
  }

  lemma {:induction false} SearchKeepsPieces(pos: Position, below: nat, alpha: Score, beta: Score, maximizing: bool,
                                             moves: seq<MoveReq>, i: nat, best: Score, orig: Cells)
    requires Valid(pos.cells) && i <= |moves|
    requires Valid(orig) && KingsHome(orig) && SamePieces(pos.cells, orig)
    requires forall n :: i <= n < |moves| ==> Playable(orig, moves[n])
    ensures SearchFrom(pos, below, alpha, beta, maximizing, moves, i, best).Ok? ==>
              SamePieces(SearchFrom(pos, below, alpha, beta, maximizing, moves, i, best).value.pos.cells, orig)
    decreases below, 2, |moves| - i
  {
    if i < |moves| {
      var m := moves[i];
      PlayableSame(orig, pos.cells, m);
      SameHome(orig, pos.cells);
      if MakeMove(pos, m).Ok? {
        var made := MakeMove(pos, m).value;
        MadeHome(pos, m, made);
        if MinimaxOf(made.pos, below, alpha, beta, !maximizing).Ok? {
          var child := MinimaxOf(made.pos, below, alpha, beta, !maximizing).value;
          MinimaxKeepsPieces(made.pos, below, alpha, beta, !maximizing);
          if Unmake(child.pos, made.undo).Ok? {
            var back := Unmake(child.pos, made.undo).value;
            StepKeepsPieces(pos, m, made, child.pos, back, orig);
            SearchStep(pos, below, alpha, beta, maximizing, moves, i, best);
            var v := child.value;
            SearchKeepsPieces(back, below, if maximizing then Max(alpha, v) else alpha, if maximizing then beta else Min(beta, v),
                              maximizing, moves, i + 1, if maximizing then Max(best, v) else Min(best, v), orig);
          }
        }
      }
    }
  }

  lemma MadeHome(pos: Position, m: MoveReq, made: Made)
    requires Valid(pos.cells) && KingsHome(pos.cells) && MakeMove(pos, m) == Ok(made)
    ensures Valid(made.pos.cells) && KingsHome(made.pos.cells) && UndoFits(made.undo)
  {
    MakeMoveValid(pos, m);
    MakeMoveHome(pos, m);
  }

  /** Taking back a playable move from any position with the pieces it left puts every piece
      back. */
  lemma StepKeepsPieces(pos: Position, m: MoveReq, made: Made, searched: Position, back: Position, orig: Cells)
    requires Valid(pos.cells) && Playable(pos.cells, m) && SamePieces(pos.cells, orig)
    requires MakeMove(pos, m) == Ok(made)
    requires SamePieces(searched.cells, made.pos.cells) && Unmake(searched, made.undo) == Ok(back)
    ensures SamePieces(back.cells, orig)
  {
    RoundTrip(pos, m);
    UnmakeReadsPieces(searched, made.pos, made.undo);
    SamePiecesTrans(back.cells, Unmake(made.pos, made.undo).value.cells, pos.cells);
    SamePiecesTrans(back.cells, pos.cells, orig);
  }

  lemma SamePiecesTrans(a: Cells, b: Cells, c: Cells)
    requires SamePieces(a, b) && SamePieces(b, c)
    ensures SamePieces(a, c)
  {
  }

  // ---------------------------------------------------------------- getBestMove / makeMove

  /** The running choice of `getBestMove`: the index of the best move so far and its value. */
  datatype Pick = Pick(index: Option<nat>, value: Score)

  /** The choice `getBestMove` makes from the values of the moves in order, starting from no
      move at +∞: a value strictly below the best so far takes its place. */
  function BestOf(values: seq<Score>): (r: Pick)
    ensures r.index.Some? ==> r.index.value < |values|
    decreases |values|
  {
    if values == [] then Pick(None, PosInf)
    else
      var prev := BestOf(values[..|values| - 1]);
      if Below(values[|values| - 1], prev.value) then Pick(Some(|values| - 1), values[|values| - 1])
      else prev
  }

  /** `<` on search values followed by `<=` is `<`. */
  lemma BelowThenAtMost(x: Score, y: Score, z: Score)
    requires Below(x, y) && !Below(z, y)
    ensures Below(x, z)
  {
  }

  /** The choice is the first of the least values, and there is none exactly when every value
      is +∞. */
  lemma {:induction false} BestOfMeaning(values: seq<Score>)
    ensures BestOf(values).index.None? <==> forall n :: 0 <= n < |values| ==> values[n] == PosInf
    ensures BestOf(values).index.None? ==> BestOf(values).value == PosInf
    ensures BestOf(values).index.Some? ==>
              var i := BestOf(values).index.value;
              && BestOf(values).value == values[i] != PosInf
              && (forall n :: 0 <= n < i ==> Below(values[i], values[n]))
              && (forall n :: i < n < |values| ==> !Below(values[n], values[i]))
    decreases |values|
  {
    if values != [] {
      var last := |values| - 1;
      var pre := values[..last];
      var v := values[last];
      BestOfMeaning(pre);
      var prev := BestOf(pre);
      assert forall n :: 0 <= n < last ==> values[n] == pre[n];
      if Below(v, prev.value) {
        if prev.index.Some? {
          var i := prev.index.value;
          forall n | 0 <= n < last
            ensures Below(v, values[n])
          {
            if n < i {
              BelowThenAtMost(v, values[i], values[n]);
            } else if n > i {
              BelowThenAtMost(v, values[i], values[n]);
            }
          }
        }
      } else if prev.index.None? {
        assert v == PosInf;
      }
    }
  }

  /** The values of the moves from i on, appended to `seen`, and the position left behind:
      each move is made, searched three plies deep for White, and taken back. */
  datatype Scored = Scored(values: seq<Score>, pos: Position)

  ghost function ScoresFrom(pos: Position, moves: seq<MoveReq>, i: nat, seen: seq<Score>): (r: Fallible<Scored>)
    requires Valid(pos.cells) && i <= |moves|
    ensures r.Ok? ==> Valid(r.value.pos.cells) && |r.value.values| == |seen| + |moves| - i
    decreases |moves| - i
  {
    if i == |moves| then Ok(Scored(seen, pos))
    else match MakeMove(pos, moves[i])
      case Crashed => Crashed
      case Ok(made) =>
        MakeMoveValid(pos, moves[i]);
        match MinimaxOf(made.pos, 3, NegInf, PosInf, true)
        case Crashed => Crashed
        case Ok(child) =>
          match Unmake(child.pos, made.undo)
          case Crashed => Crashed
          case Ok(back) =>
            UnmakeValid(child.pos, made.undo);
            ScoresFrom(back, moves, i + 1, seen + [child.value])
  }

  /** Black's move and the position the search leaves behind. */
  datatype Chosen = Chosen(move: Option<MoveReq>, pos: Position)

  /** `getBestMove(board)`: Black's moves, their values, and the first move of least value,
      or no move when there is none below +∞. */
  ghost function BestMoveOf(pos: Position): (r: Fallible<Chosen>)
    requires Valid(pos.cells)
    ensures r.Ok? ==> Valid(r.value.pos.cells)
  {
    var all := AllMoves(pos, Black);
    match ScoresFrom(all.pos, all.moves, 0, [])
    case Crashed => Crashed
    case Ok(scored) =>
      var pick := BestOf(scored.values);
      Ok(Chosen(if pick.index.Some? then Some(all.moves[pick.index.value]) else None, scored.pos))
  }

  /** One step of the loop of `getBestMove` once move i has been made, searched and taken back. */
  lemma ScoresStep(pos: Position, moves: seq<MoveReq>, i: nat, seen: seq<Score>, made: Made, child: Searched, back: Position)
    requires Valid(pos.cells) && i < |moves| && MakeMove(pos, moves[i]) == Ok(made)
    requires Valid(made.pos.cells) && MinimaxOf(made.pos, 3, NegInf, PosInf, true) == Ok(child)
    requires Unmake(child.pos, made.undo) == Ok(back)
    ensures Valid(back.cells)
    ensures ScoresFrom(pos, moves, i, seen) == ScoresFrom(back, moves, i + 1, seen + [child.value])
  {
    MakeMoveValid(pos, moves[i]);
    UnmakeValid(child.pos, made.undo);
  }

  /** The move `getBestMove` picks is one `getAllMoves` lists for Black, and it is the first of
      least value; there is none exactly when every value is +∞ (or Black has no move). */
  lemma BestMoveMeaning(pos: Position)
    requires Valid(pos.cells)
    ensures var all := AllMoves(pos, Black);
            var scores := ScoresFrom(all.pos, all.moves, 0, []);
            BestMoveOf(pos).Ok? ==>
              && scores.Ok? && |scores.value.values| == |all.moves|
              && (BestMoveOf(pos).value.move.None? <==>
                    forall n :: 0 <= n < |all.moves| ==> scores.value.values[n] == PosInf)
              && (BestMoveOf(pos).value.move.Some? ==>
                    && Offered(pos, Black, 0, BestMoveOf(pos).value.move.value)
                    && exists i :: 0 <= i < |all.moves| && all.moves[i] == BestMoveOf(pos).value.move.value
                         && scores.value.values[i] != PosInf
                         && (forall n :: 0 <= n < i ==> Below(scores.value.values[i], scores.value.values[n]))
                         && (forall n :: i < n < |all.moves| ==> !Below(scores.value.values[n], scores.value.values[i])))
  {
    var all := AllMoves(pos, Black);
    if BestMoveOf(pos).Ok? {
      var values := ScoresFrom(all.pos, all.moves, 0, []).value.values;
      BestOfMeaning(values);
      var pick := BestOf(values);
      if pick.index.Some? {
        var i := pick.index.value;
        AllMovesMembers(pos, Black, 0, pos, all.moves[i]);
        assert all.moves[i] == BestMoveOf(pos).value.move.value;
      }
    }
  }

  /** `getBestMove` leaves every piece where it found it. */
  lemma BestMoveKeepsPieces(pos: Position)
    requires Valid(pos.cells) && KingsHome(pos.cells)
    ensures BestMoveOf(pos).Ok? ==> SamePieces(BestMoveOf(pos).value.pos.cells, pos.cells)
  {
    var all := AllMoves(pos, Black);
    AllMovesKeep(pos, Black, 0, pos);
    forall n | 0 <= n < |all.moves|
      ensures Playable(pos.cells, all.moves[n])
    {
      AllMovesMembers(pos, Black, 0, pos, all.moves[n]);
      OfferedPlayable(pos, Black, all.moves[n]);
    }
    ScoresKeepPieces(all.pos, all.moves, 0, [], pos.cells);
  }

  lemma {:induction false} ScoresKeepPieces(pos: Position, moves: seq<MoveReq>, i: nat, seen: seq<Score>, orig: Cells)
    requires Valid(pos.cells) && i <= |moves|
    requires Valid(orig) && KingsHome(orig) && SamePieces(pos.cells, orig)
    requires forall n :: i <= n < |moves| ==> Playable(orig, moves[n])
    ensures ScoresFrom(pos, moves, i, seen).Ok? ==> SamePieces(ScoresFrom(pos, moves, i, seen).value.pos.cells, orig)
    decreases |moves| - i
  {
    if i < |moves| {
      var m := moves[i];
      PlayableSame(orig, pos.cells, m);
      SameHome(orig, pos.cells);
      if MakeMove(pos, m).Ok? {
        var made := MakeMove(pos, m).value;
        MadeHome(pos, m, made);
        if MinimaxOf(made.pos, 3, NegInf, PosInf, true).Ok? {
          var child := MinimaxOf(made.pos, 3, NegInf, PosInf, true).value;
          MinimaxKeepsPieces(made.pos, 3, NegInf, PosInf, true);
          if Unmake(child.pos, made.undo).Ok? {
            var back := Unmake(child.pos, made.undo).value;
            StepKeepsPieces(pos, m, made, child.pos, back, orig);
            ScoresStep(pos, moves, i, seen, made, child, back);
            ScoresKeepPieces(back, moves, i + 1, seen + [child.value], orig);
          }
        }
      }
    }
  }

  /** `getBestMove` on the board object. */
  method GetBestMove(board: Board, vm: ValidMoves) returns (res: Fallible<Option<MoveReq>>)
    requires Valid(board.cells) && vm.Precomputed()
    modifies board
    ensures BestMoveOf(old(board.Pos())).Crashed? ==> res.Crashed?
    ensures BestMoveOf(old(board.Pos())).Ok? ==>
              res == Ok(BestMoveOf(old(board.Pos())).value.move) && board.Pos() == BestMoveOf(old(board.Pos())).value.pos
  {
    var bestMove: Option<MoveReq> := None;
    var bestValue := PosInf;
    var allMoves := GetAllMoves(board, Black, vm);
    ghost var seen: seq<Score> := [];
    ghost var goal := ScoresFrom(board.Pos(), allMoves, 0, seen);
    for n := 0 to |allMoves|
      invariant Valid(board.cells) && |seen| == n
      invariant ScoresFrom(board.Pos(), allMoves, n, seen) == goal
      invariant BestOf(seen).value == bestValue
      invariant bestMove == if BestOf(seen).index.Some? then Some(allMoves[BestOf(seen).index.value]) else None
    {
      ghost var here := board.Pos();
      var moveData := board.MovePiece(allMoves[n]);
      if moveData.Crashed? {
        return Crashed;
      }
      MakeMoveValid(here, allMoves[n]);
      ghost var made := MakeMove(here, allMoves[n]).value;
      var boardValue := Minimax(board, vm, 3, NegInf, PosInf, true);
      if boardValue.Crashed? {
        return Crashed;
      }
      ghost var child := MinimaxOf(made.pos, 3, NegInf, PosInf, true).value;
      var undone := board.UnmakeMove(moveData.value);
      if !undone {
        return Crashed;
      }
      ScoresStep(here, allMoves, n, seen, made, child, board.Pos());
      if Below(boardValue.value, bestValue) {
        bestValue := boardValue.value;
        bestMove := Some(allMoves[n]);
      }
      seen := seen + [boardValue.value];
      assert seen[..|seen| - 1] == seen[..n];
    }
    return Ok(bestMove);
  }

  /** The AI's turn (`makeMove` without its timer and display): pick Black's move and, when
      there is one, make it on the board the search left behind. */
  ghost function AiTurn(pos: Position): (r: Fallible<Chosen>)
    requires Valid(pos.cells)
    ensures r.Ok? ==> Valid(r.value.pos.cells)
  {
    match BestMoveOf(pos)
    case Crashed => Crashed
    case Ok(chosen) =>
      if chosen.move.None? then Ok(chosen)
      else match MakeMove(chosen.pos, chosen.move.value)
        case Crashed => Crashed
        case Ok(made) =>
          MakeMoveValid(chosen.pos, chosen.move.value);
          Ok(Chosen(chosen.move, made.pos))
  }

  /** On a consistent board whose unmoved pieces are at home, once the search returns the
      AI's own move never throws: the move it picked is made and becomes the last move. */
  lemma AiTurnPlays(pos: Position)
    requires Valid(pos.cells) && KingsHome(pos.cells) && BestMoveOf(pos).Ok?
    ensures AiTurn(pos).Ok? && AiTurn(pos).value.move == BestMoveOf(pos).value.move
    ensures AiTurn(pos).value.move.Some? ==> AiTurn(pos).value.pos.lastMove == AiTurn(pos).value.move
    ensures AiTurn(pos).value.move.None? ==> AiTurn(pos).value.pos == BestMoveOf(pos).value.pos
  {
    var chosen := BestMoveOf(pos).value;
    if chosen.move.Some? {
      var m := chosen.move.value;
      BestMoveMeaning(pos);
      BestMoveKeepsPieces(pos);
      OfferedPlayable(pos, Black, m);
      PlayableSame(pos.cells, chosen.pos.cells, m);
      if IsCastle(chosen.pos.cells, m) {
        CastleEffect(chosen.pos, m);
      } else {
        PlainMoveEffect(chosen.pos, m);
      }
    }
  }

  /** `makeMove` on the board object, without the timer and the redraw. */
  method PlayBestMove(board: Board, vm: ValidMoves) returns (res: Fallible<Option<MoveReq>>)
    requires Valid(board.cells) && vm.Precomputed()
    modifies board
    ensures AiTurn(old(board.Pos())).Crashed? ==> res.Crashed?
    ensures AiTurn(old(board.Pos())).Ok? ==>
              res == Ok(AiTurn(old(board.Pos())).value.move) && board.Pos() == AiTurn(old(board.Pos())).value.pos
  {
    var bestMove := GetBestMove(board, vm);
    if bestMove.Crashed? {
      return Crashed;
    }
    if bestMove.value.Some? {
      var moved := board.MovePiece(bestMove.value.value);
      if moved.Crashed? {
        return Crashed;
      }
    }
    res := bestMove;
  }
}
