/**
  Per-piece move generation of the main engine (`Pawn`, `Rook`, `Knight`, `Bishop`, `Queen`,
  `King` and their `getValidMoves` / `getAttackMoves`), and the attack test `isCheck`, as
  functions of the board.  A generator reads the piece's own `row`/`col` (its `tile`).
  `Pawn.getValidMoves` is not pure: it flags each en-passant target it offers, so every
  generator returns the grid it leaves behind together with its moves.
 */
module PieceRules {
  import opened ChessTypes
  import opened MoveTables

  /** The moves a generator returns and the grid after it ran. */
  datatype Generated = Generated(moves: seq<Coord>, cells: Cells)

  // ---------------------------------------------------------------- pawns

  /** `Pawn.getAttackMoves`: the in-bounds squares diagonally forward, left one first. */
  function PawnAttacks(r: int, c: int, color: Color): (ms: seq<Coord>)
    ensures AllInBounds(ms)
    ensures forall t :: t in ms <==>
              InBounds(t.row, t.col) && t.row == r + Direction(color) && Abs(t.col - c) == 1
  {
    var d := Direction(color);
    (if InBounds(r + d, c - 1) then [Coord(r + d, c - 1)] else []) +
    (if InBounds(r + d, c + 1) then [Coord(r + d, c + 1)] else [])
  }

  /** The capture part of `Pawn.getValidMoves`: attack squares holding the other colour. */
  function Captures(cells: Cells, ts: seq<Coord>, color: Color): (ms: seq<Coord>)
    requires AllInBounds(ts)
    ensures forall t :: t in ms <==> t in ts && HasColor(cells, t.row, t.col, Opponent(color))
    decreases |ts|
  {
    if ts == [] then []
    else
      var t := ts[0];
      var occupant := PieceAt(cells, t.row, t.col);
      (if occupant.Some? && occupant.value.color != color then [t] else []) + Captures(cells, ts[1..], color)
  }

  /** One step of `Captures`: the first square is kept when the other colour stands on it. */
  lemma CapturesHead(cells: Cells, ts: seq<Coord>, color: Color)
    requires AllInBounds(ts) && ts != []
    ensures Captures(cells, ts, color) ==
              (if PieceAt(cells, ts[0].row, ts[0].col).Some? && PieceAt(cells, ts[0].row, ts[0].col).value.color != color
               then [ts[0]] else []) + Captures(cells, ts[1..], color)
  {
  }

  /** The previous move was a two-row advance of the piece `q` (`board.lastMove.piece === q`). */
  predicate JustDoubleStepped(pos: Position, q: Piece) {
    && pos.lastMove.Some?
    && pos.lastMove.value.mover == Some(q.id)
    && Abs(pos.lastMove.value.startRow - pos.lastMove.value.endRow) == 2
  }

  /** One side (dc = -1 or +1) of the en-passant part of `Pawn.getValidMoves`. */
  function EnPassantTarget(pos: Position, p: Piece, dc: int): Option<Coord> {
    var adjacent := GetTile(pos.cells, p.row, p.col + dc);
    if adjacent.Some? && adjacent.value.piece.Some? && adjacent.value.piece.value.color != p.color
       && JustDoubleStepped(pos, adjacent.value.piece.value)
    then
      var target := Coord(p.row + Direction(p.color), p.col + dc);
      var targetTile := GetTile(pos.cells, target.row, target.col);
      if targetTile.Some? && targetTile.value.piece.None? then Some(target) else None
    else None
  }

  function OptionList(o: Option<Coord>): seq<Coord> {
    if o.Some? then [o.value] else []
  }

  function FlagTarget(cells: Cells, o: Option<Coord>): Cells {
    if o.Some? && InBounds(o.value.row, o.value.col) then SetFlag(cells, o.value.row, o.value.col) else cells
  }

  /** A pawn move straight ahead: one step onto an empty square, or two steps when the pawn
      has not moved and both squares are empty. */
  predicate PawnPush(cells: Cells, p: Piece, t: Coord)
    requires InBounds(p.row, p.col)
  {
    var d := Direction(p.color);
    || (t == Coord(p.row + d, p.col) && InBounds(t.row, t.col) && PieceAt(cells, t.row, t.col).None?)
    || (t == Coord(p.row + 2 * d, p.col) && p.firstMove && InBounds(t.row, t.col)
        && PieceAt(cells, p.row + d, p.col).None? && PieceAt(cells, t.row, t.col).None?)
  }

  /** A pawn capture: one forward diagonal onto a piece of the other colour. */
  predicate PawnCapture(cells: Cells, p: Piece, t: Coord) {
    && InBounds(t.row, t.col) && t.row == p.row + Direction(p.color) && Abs(t.col - p.col) == 1
    && HasColor(cells, t.row, t.col, Opponent(p.color))
  }

  /** The forward part of `Pawn.getValidMoves`. */
  function PawnPushes(cells: Cells, p: Piece): (ms: seq<Coord>)
    requires InBounds(p.row, p.col)
    ensures forall t :: t in ms <==> PawnPush(cells, p, t)
  {
    var d := Direction(p.color);
    var oneStep := GetTile(cells, p.row + d, p.col);
    var twoSteps := GetTile(cells, p.row + 2 * d, p.col);
    (if oneStep.Some? && oneStep.value.piece.None? then [Coord(p.row + d, p.col)] else []) +
    (if p.firstMove && twoSteps.Some? && twoSteps.value.piece.None? && oneStep.value.piece.None?
     then [Coord(p.row + 2 * d, p.col)] else [])
  }

  /** `Pawn.getValidMoves`: one step, two steps, captures, then en passant to the left and to
      the right; each en-passant target offered is flagged on the grid. */
  function PawnValidMoves(pos: Position, p: Piece): Generated
    requires InBounds(p.row, p.col)
  {
    var left := EnPassantTarget(pos, p, -1);
    var right := EnPassantTarget(pos, p, 1);
    Generated(PawnPushes(pos.cells, p) + Captures(pos.cells, PawnAttacks(p.row, p.col, p.color), p.color)
              + OptionList(left) + OptionList(right),
              FlagTarget(FlagTarget(pos.cells, left), right))
  }

  /** A pawn's square is empty and lies one forward diagonal away, and the enemy piece beside
      the pawn on that file made the previous move as a two-row advance. */
  ghost predicate EnPassantSquare(pos: Position, p: Piece, t: Coord) {
    && InBounds(t.row, t.col) && InBounds(p.row, t.col)
    && t.row == p.row + Direction(p.color) && Abs(t.col - p.col) == 1
    && PieceAt(pos.cells, t.row, t.col).None?
    && HasColor(pos.cells, p.row, t.col, Opponent(p.color))
    && JustDoubleStepped(pos, PieceAt(pos.cells, p.row, t.col).value)
  }

  lemma EnPassantTargetExact(pos: Position, p: Piece, dc: int, t: Coord)
    requires dc == -1 || dc == 1
    ensures EnPassantTarget(pos, p, dc) == Some(t) <==> EnPassantSquare(pos, p, t) && t.col == p.col + dc
  {
  }

  /** What a pawn may do: one step onto an empty square; two steps only when unmoved and both
      squares are empty; a diagonal step only onto an enemy piece or as an en-passant capture. */
  lemma PawnMovesExact(pos: Position, p: Piece, t: Coord)
    requires InBounds(p.row, p.col)
    ensures t in PawnValidMoves(pos, p).moves <==>
              PawnPush(pos.cells, p, t) || PawnCapture(pos.cells, p, t) || EnPassantSquare(pos, p, t)
  {
    var moves := PawnValidMoves(pos, p).moves;
    var pushes := PawnPushes(pos.cells, p);
    var captures := Captures(pos.cells, PawnAttacks(p.row, p.col, p.color), p.color);
    var left := OptionList(EnPassantTarget(pos, p, -1));
    var right := OptionList(EnPassantTarget(pos, p, 1));
    assert moves == pushes + captures + left + right;
    assert t in moves <==> t in pushes || t in captures || t in left + right;
    assert t in captures <==> PawnCapture(pos.cells, p, t);
    EnPassantMembers(pos, p, t);
  }

  lemma EnPassantMembers(pos: Position, p: Piece, t: Coord)
    ensures t in OptionList(EnPassantTarget(pos, p, -1)) + OptionList(EnPassantTarget(pos, p, 1)) <==>
            EnPassantSquare(pos, p, t)
  {
    EnPassantTargetExact(pos, p, -1, t);
    EnPassantTargetExact(pos, p, 1, t);
  }

  /** `Pawn.getValidMoves` moves no piece; it flags exactly the en-passant squares it offers. */
  lemma PawnFlagsExact(pos: Position, p: Piece)
    requires InBounds(p.row, p.col)
    ensures SamePieces(PawnValidMoves(pos, p).cells, pos.cells)
    ensures forall r, c :: InBounds(r, c) ==>
              (FlagAt(PawnValidMoves(pos, p).cells, r, c) <==>
                 FlagAt(pos.cells, r, c) || EnPassantSquare(pos, p, Coord(r, c)))
  {
    var left := EnPassantTarget(pos, p, -1);
    var right := EnPassantTarget(pos, p, 1);
    var mid := FlagTarget(pos.cells, left);
    var res := FlagTarget(mid, right);
    forall r, c | InBounds(r, c)
      ensures res[Idx(r, c)].piece == pos.cells[Idx(r, c)].piece
      ensures FlagAt(res, r, c) <==> FlagAt(pos.cells, r, c) || EnPassantSquare(pos, p, Coord(r, c))
    {
      EnPassantTargetExact(pos, p, -1, Coord(r, c));
      EnPassantTargetExact(pos, p, 1, Coord(r, c));
      if left.Some? { IdxInjective(r, c, left.value.row, left.value.col); }
      if right.Some? { IdxInjective(r, c, right.value.row, right.value.col); }
    }
  }

  // ---------------------------------------------------------------- attacks

  /** The moves of a knight, bishop, rook or queen at (r, c) (their `getValidMoves`, which is
      also their `getAttackMoves`); the queen's rook rays come before its bishop rays. */
  function PieceMoves(cells: Cells, r: int, c: int, p: Piece): seq<Coord>
    requires InBounds(r, c)
  {
    match p.kind
    case Knight => KnightMoves(cells, r, c, p.color)
    case Bishop => SlidingMoves(cells, BishopRays(r, c), p.color)
    case Rook => SlidingMoves(cells, RookRays(r, c), p.color)
    case Queen => SlidingMoves(cells, RookRays(r, c), p.color) + SlidingMoves(cells, BishopRays(r, c), p.color)
    case _ => []
  }

  /** The squares `isCheck` tests for the piece `p` found at (i, j): the king's table entry,
      a pawn's forward diagonals, and otherwise the piece's moves. */
  function AttackSet(cells: Cells, i: int, j: int, p: Piece): seq<Coord>
    requires InBounds(i, j)
  {
    match p.kind
    case King => KingTargets(i, j)
    case Pawn => PawnAttacks(i, j, p.color)
    case _ => PieceMoves(cells, i, j, p)
  }

  /** A king's attack squares are its jump targets, whatever stands on them. */
  lemma AttackSetKing(cells: Cells, i: int, j: int, p: Piece)
    requires InBounds(i, j) && p.kind == King
    ensures AttackSet(cells, i, j, p) == KingTargets(i, j)
  {
    match p.kind
    case King =>
  }

  // What each kind attacks, in chess terms.  A king attacks the adjacent squares, a pawn its
  // forward diagonals, a knight its jumps and a sliding piece the end of each clear line;
  // knights and sliding pieces (but not kings and pawns) skip squares of their own colour.

  lemma KingAttack(cells: Cells, i: int, j: int, p: Piece, t: Coord)
    requires InBounds(i, j) && p.kind == King
    ensures t in AttackSet(cells, i, j, p) <==> InBounds(t.row, t.col) && KingStep(t.row - i, t.col - j)
  {
    KingTargetsExact(i, j, t);
  }

  lemma PawnAttack(cells: Cells, i: int, j: int, p: Piece, t: Coord)
    requires InBounds(i, j) && p.kind == Pawn
    ensures t in AttackSet(cells, i, j, p) <==>
            InBounds(t.row, t.col) && t.row == i + Direction(p.color) && Abs(t.col - j) == 1
  {
  }

  lemma KnightAttack(cells: Cells, i: int, j: int, p: Piece, t: Coord)
    requires InBounds(i, j) && p.kind == Knight
    ensures t in AttackSet(cells, i, j, p) <==>
            InBounds(t.row, t.col) && KnightJump(t.row - i, t.col - j) && !HasColor(cells, t.row, t.col, p.color)
  {
    KnightMovesExact(cells, i, j, p.color, t);
  }

  lemma RookAttack(cells: Cells, i: int, j: int, p: Piece, t: Coord)
    requires InBounds(i, j) && p.kind == Rook
    ensures t in AttackSet(cells, i, j, p) <==> OrthogonalReach(cells, i, j, p.color, t)
  {
    RookReach(cells, i, j, p.color, t);
  }

  lemma BishopAttack(cells: Cells, i: int, j: int, p: Piece, t: Coord)
    requires InBounds(i, j) && p.kind == Bishop
    ensures t in AttackSet(cells, i, j, p) <==> DiagonalReach(cells, i, j, p.color, t)
  {
    BishopReach(cells, i, j, p.color, t);
  }

  lemma QueenAttack(cells: Cells, i: int, j: int, p: Piece, t: Coord)
    requires InBounds(i, j) && p.kind == Queen
    ensures t in AttackSet(cells, i, j, p) <==>
            OrthogonalReach(cells, i, j, p.color, t) || DiagonalReach(cells, i, j, p.color, t)
  {
    var rook := SlidingMoves(cells, RookRays(i, j), p.color);
    var bishop := SlidingMoves(cells, BishopRays(i, j), p.color);
    assert AttackSet(cells, i, j, p) == rook + bishop;
    RookReach(cells, i, j, p.color, t);
    BishopReach(cells, i, j, p.color, t);
  }

  /** The piece on (i, j) is of the other colour than `color` and attacks (r, c). */
  predicate AttackerAt(cells: Cells, i: int, j: int, r: int, c: int, color: Color)
    requires InBounds(i, j)
  {
    var q := PieceAt(cells, i, j);
    q.Some? && q.value.color != color && Coord(r, c) in AttackSet(cells, i, j, q.value)
  }

  /** `isCheck(r, c, color)`: some piece of the other colour attacks (r, c). */
  ghost predicate Attacked(cells: Cells, r: int, c: int, color: Color) {
    exists i, j :: InBounds(i, j) && AttackerAt(cells, i, j, r, c, color)
  }

  // ---------------------------------------------------------------- kings

  /** The king-step part of `King.getValidMoves`: the steps that are not attacked. */
  ghost function Unattacked(cells: Cells, ts: seq<Coord>, color: Color): seq<Coord>
    decreases |ts|
  {
    if ts == [] then []
    else
      (if !Attacked(cells, ts[0].row, ts[0].col, color) then [ts[0]] else []) + Unattacked(cells, ts[1..], color)
  }

  /** The steps kept are exactly the unattacked ones. */
  lemma {:induction false} UnattackedMembers(cells: Cells, ts: seq<Coord>, color: Color, t: Coord)
    ensures t in Unattacked(cells, ts, color) <==> t in ts && !Attacked(cells, t.row, t.col, color)
    decreases |ts|
  {
    if ts != [] {
      UnattackedMembers(cells, ts[1..], color, t);
      assert t in ts <==> t == ts[0] || t in ts[1..];
    }
  }

  /** The kingside castling test: a piece that has not moved in the corner of the king's row
      (of any kind), the two squares between empty and neither attacked. */
  ghost predicate CanCastleKingside(cells: Cells, p: Piece)
    requires InBounds(p.row, p.col)
  {
    var rook := PieceAt(cells, p.row, 7);
    && rook.Some? && rook.value.firstMove
    && PieceAt(cells, p.row, 5).None? && PieceAt(cells, p.row, 6).None?
    && !Attacked(cells, p.row, 5, p.color) && !Attacked(cells, p.row, 6, p.color)
  }

  /** The queenside castling test: three empty squares, of which columns 2 and 3 unattacked. */
  ghost predicate CanCastleQueenside(cells: Cells, p: Piece)
    requires InBounds(p.row, p.col)
  {
    var rook := PieceAt(cells, p.row, 0);
    && rook.Some? && rook.value.firstMove
    && PieceAt(cells, p.row, 1).None? && PieceAt(cells, p.row, 2).None? && PieceAt(cells, p.row, 3).None?
    && !Attacked(cells, p.row, 2, p.color) && !Attacked(cells, p.row, 3, p.color)
  }

  /** The castling part of `King.getValidMoves`: only for an unmoved king that is not attacked. */
  ghost function Castlings(cells: Cells, p: Piece): (ms: seq<Coord>)
    requires InBounds(p.row, p.col)
  {
    if p.firstMove && !Attacked(cells, p.row, p.col, p.color) then
      (if CanCastleKingside(cells, p) then [Coord(p.row, 6)] else []) +
      (if CanCastleQueenside(cells, p) then [Coord(p.row, 2)] else [])
    else []
  }

  /** `King.getValidMoves` */
  ghost function KingValidMoves(cells: Cells, p: Piece): seq<Coord>
    requires InBounds(p.row, p.col)
  {
    Unattacked(cells, KingMoves(cells, p.row, p.col, p.color), p.color) + Castlings(cells, p)
  }

  /** A king step: to an adjacent square without a piece of the king's colour that the other
      side does not attack (as seen with the king still on its square). */
  ghost predicate SafeStep(cells: Cells, p: Piece, t: Coord) {
    && InBounds(t.row, t.col) && KingStep(t.row - p.row, t.col - p.col)
    && !HasColor(cells, t.row, t.col, p.color) && !Attacked(cells, t.row, t.col, p.color)
  }

  /** Castling: an unmoved, unattacked king moves two columns towards a corner that passes the
      kingside (queenside) test. */
  ghost predicate CastleTo(cells: Cells, p: Piece, t: Coord)
    requires InBounds(p.row, p.col)
  {
    && p.firstMove && !Attacked(cells, p.row, p.col, p.color)
    && ((t == Coord(p.row, 6) && CanCastleKingside(cells, p)) ||
        (t == Coord(p.row, 2) && CanCastleQueenside(cells, p)))
  }

  lemma KingMovesExact(cells: Cells, p: Piece, t: Coord)
    requires InBounds(p.row, p.col)
    ensures t in KingValidMoves(cells, p) <==> SafeStep(cells, p, t) || CastleTo(cells, p, t)
  {
    var steps := Unattacked(cells, KingMoves(cells, p.row, p.col, p.color), p.color);
    var castles := Castlings(cells, p);
    assert t in KingValidMoves(cells, p) <==> t in steps || t in castles;
    SafeStepsExact(cells, p, t);
    CastlingsExact(cells, p, t);
  }

  lemma SafeStepsExact(cells: Cells, p: Piece, t: Coord)
    ensures t in Unattacked(cells, KingMoves(cells, p.row, p.col, p.color), p.color) <==> SafeStep(cells, p, t)
  {
    KingStepsAll(cells, p.row, p.col, p.color);
    SafeStepsOf(cells, p, KingMoves(cells, p.row, p.col, p.color), t);
  }

  lemma SafeStepsOf(cells: Cells, p: Piece, steps: seq<Coord>, t: Coord)
    requires forall u :: u in steps <==> InBounds(u.row, u.col) && KingStep(u.row - p.row, u.col - p.col) &&
                                         !HasColor(cells, u.row, u.col, p.color)
    ensures t in Unattacked(cells, steps, p.color) <==> SafeStep(cells, p, t)
  {
    UnattackedMembers(cells, steps, p.color, t);
  }

  lemma CastlingsExact(cells: Cells, p: Piece, t: Coord)
    requires InBounds(p.row, p.col)
    ensures t in Castlings(cells, p) <==> CastleTo(cells, p, t)
  {
    if p.firstMove && !Attacked(cells, p.row, p.col, p.color) {
      var kingside := if CanCastleKingside(cells, p) then [Coord(p.row, 6)] else [];
      var queenside := if CanCastleQueenside(cells, p) then [Coord(p.row, 2)] else [];
      assert Castlings(cells, p) == kingside + queenside;
      assert t in Castlings(cells, p) <==> t in kingside || t in queenside;
    }
  }

  /** `piece.getValidMoves(board)` for any piece, with the grid it leaves behind. */
  ghost function ValidMovesOf(pos: Position, p: Piece): Generated
    requires InBounds(p.row, p.col)
  {
    match p.kind
    case Pawn => PawnValidMoves(pos, p)
    case King => Generated(KingValidMoves(pos.cells, p), pos.cells)
    case _ => Generated(PieceMoves(pos.cells, p.row, p.col, p), pos.cells)
  }

  /** `ValidMovesOf` by kind: a pawn's generator, the king's, or the shared piece moves. */
  lemma ValidMovesOfKind(pos: Position, p: Piece)
    requires InBounds(p.row, p.col)
    ensures p.kind == Pawn ==> ValidMovesOf(pos, p) == PawnValidMoves(pos, p)
    ensures p.kind == King ==> ValidMovesOf(pos, p).moves == KingValidMoves(pos.cells, p)
    ensures p.kind != Pawn && p.kind != King ==>
              ValidMovesOf(pos, p).moves == PieceMoves(pos.cells, p.row, p.col, p)
  {
    match p.kind
    case Pawn =>
    case King =>
    case _ =>
  }

  /** Only a pawn's generator changes the grid, and only its flags. */
  lemma ValidMovesKeepPieces(pos: Position, p: Piece)
    requires InBounds(p.row, p.col)
    ensures SamePieces(ValidMovesOf(pos, p).cells, pos.cells)
    ensures p.kind != Pawn ==> ValidMovesOf(pos, p).cells == pos.cells
  {
    if p.kind == Pawn {
      PawnFlagsExact(pos, p);
    }
  }

  // ---------------------------------------------------------------- flags are not read

  // Move generation reads the pieces and `lastMove`, never the en-passant flags: two
  // positions with the same pieces and the same last move offer the same moves.

  lemma PieceMovesSame(a: Cells, b: Cells, r: int, c: int, p: Piece)
    requires InBounds(r, c) && SamePieces(a, b)
    ensures PieceMoves(a, r, c, p) == PieceMoves(b, r, c, p)
  {
    match p.kind
    case Knight => NotOwnSame(a, b, KnightTargets(r, c), p.color);
    case Rook => SlidingMovesFromSame(a, b, RookRays(r, c), p.color, 0);
    case Bishop => SlidingMovesFromSame(a, b, BishopRays(r, c), p.color, 0);
    case Queen =>
      SlidingMovesFromSame(a, b, RookRays(r, c), p.color, 0);
      SlidingMovesFromSame(a, b, BishopRays(r, c), p.color, 0);
    case _ =>
  }

  lemma AttackedSame(a: Cells, b: Cells, r: int, c: int, color: Color)
    requires SamePieces(a, b)
    ensures Attacked(a, r, c, color) <==> Attacked(b, r, c, color)
  {
    forall i, j | InBounds(i, j)
      ensures AttackerAt(a, i, j, r, c, color) <==> AttackerAt(b, i, j, r, c, color)
    {
      assert PieceAt(a, i, j) == PieceAt(b, i, j);
      if PieceAt(a, i, j).Some? {
        PieceMovesSame(a, b, i, j, PieceAt(a, i, j).value);
      }
    }
  }

  lemma {:induction false} UnattackedSame(a: Cells, b: Cells, ts: seq<Coord>, color: Color)
    requires SamePieces(a, b)
    ensures Unattacked(a, ts, color) == Unattacked(b, ts, color)
    decreases |ts|
  {
    if ts != [] {
      AttackedSame(a, b, ts[0].row, ts[0].col, color);
      UnattackedSame(a, b, ts[1..], color);
    }
  }

  lemma {:induction false} CapturesSame(a: Cells, b: Cells, ts: seq<Coord>, color: Color)
    requires AllInBounds(ts) && SamePieces(a, b)
    ensures Captures(a, ts, color) == Captures(b, ts, color)
    decreases |ts|
  {
    if ts != [] {
      assert PieceAt(a, ts[0].row, ts[0].col) == PieceAt(b, ts[0].row, ts[0].col);
      CapturesSame(a, b, ts[1..], color);
    }
  }

  lemma GetTileSame(a: Cells, b: Cells, r: int, c: int)
    requires SamePieces(a, b)
    ensures GetTile(a, r, c).Some? <==> GetTile(b, r, c).Some?
    ensures GetTile(a, r, c).Some? ==> GetTile(a, r, c).value.piece == GetTile(b, r, c).value.piece
  {
    if InBounds(r, c) {
      assert PieceAt(a, r, c) == PieceAt(b, r, c);
    }
  }

  lemma PawnMovesSame(a: Position, b: Position, p: Piece)
    requires InBounds(p.row, p.col) && SamePieces(a.cells, b.cells) && a.lastMove == b.lastMove
    ensures PawnValidMoves(a, p).moves == PawnValidMoves(b, p).moves
  {
    PushesSame(a.cells, b.cells, p);
    CapturesSame(a.cells, b.cells, PawnAttacks(p.row, p.col, p.color), p.color);
    EnPassantSame(a, b, p, -1);
    EnPassantSame(a, b, p, 1);
  }

  lemma PushesSame(a: Cells, b: Cells, p: Piece)
    requires InBounds(p.row, p.col) && SamePieces(a, b)
    ensures PawnPushes(a, p) == PawnPushes(b, p)
  {
    var d := Direction(p.color);
    GetTileSame(a, b, p.row + d, p.col);
    GetTileSame(a, b, p.row + 2 * d, p.col);
  }

  lemma EnPassantSame(a: Position, b: Position, p: Piece, dc: int)
    requires SamePieces(a.cells, b.cells) && a.lastMove == b.lastMove
    ensures EnPassantTarget(a, p, dc) == EnPassantTarget(b, p, dc)
  {
    GetTileSame(a.cells, b.cells, p.row, p.col + dc);
    GetTileSame(a.cells, b.cells, p.row + Direction(p.color), p.col + dc);
  }

  lemma KingMovesSame(a: Cells, b: Cells, p: Piece)
    requires InBounds(p.row, p.col) && SamePieces(a, b)
    ensures KingValidMoves(a, p) == KingValidMoves(b, p)
  {
    NotOwnSame(a, b, KingTargets(p.row, p.col), p.color);
    UnattackedSame(a, b, KingMoves(a, p.row, p.col, p.color), p.color);
    CastlingsSame(a, b, p);
  }

  lemma CastlingsSame(a: Cells, b: Cells, p: Piece)
    requires InBounds(p.row, p.col) && SamePieces(a, b)
    ensures Castlings(a, p) == Castlings(b, p)
  {
    AttackedSame(a, b, p.row, p.col, p.color);
    KingsideSame(a, b, p);
    QueensideSame(a, b, p);
  }

  lemma KingsideSame(a: Cells, b: Cells, p: Piece)
    requires InBounds(p.row, p.col) && SamePieces(a, b)
    ensures CanCastleKingside(a, p) == CanCastleKingside(b, p)
  {
    assert PieceAt(a, p.row, 7) == PieceAt(b, p.row, 7);
    assert PieceAt(a, p.row, 5) == PieceAt(b, p.row, 5);
    assert PieceAt(a, p.row, 6) == PieceAt(b, p.row, 6);
    AttackedSame(a, b, p.row, 5, p.color);
    AttackedSame(a, b, p.row, 6, p.color);
  }

  lemma QueensideSame(a: Cells, b: Cells, p: Piece)
    requires InBounds(p.row, p.col) && SamePieces(a, b)
    ensures CanCastleQueenside(a, p) == CanCastleQueenside(b, p)
  {
    assert PieceAt(a, p.row, 0) == PieceAt(b, p.row, 0);
    assert PieceAt(a, p.row, 1) == PieceAt(b, p.row, 1);
    assert PieceAt(a, p.row, 2) == PieceAt(b, p.row, 2);
    assert PieceAt(a, p.row, 3) == PieceAt(b, p.row, 3);
    AttackedSame(a, b, p.row, 2, p.color);
    AttackedSame(a, b, p.row, 3, p.color);
  }

  /** `getValidMoves` reads the pieces and `lastMove` only. */
  lemma ValidMovesSame(a: Position, b: Position, p: Piece)
    requires InBounds(p.row, p.col) && SamePieces(a.cells, b.cells) && a.lastMove == b.lastMove
    ensures ValidMovesOf(a, p).moves == ValidMovesOf(b, p).moves
  {
    match p.kind
    case Pawn => PawnMovesSame(a, b, p);
    case King => KingMovesSame(a.cells, b.cells, p);
    case _ => PieceMovesSame(a.cells, b.cells, p.row, p.col, p);
  }
}
