module DocsDirections {
  import opened ChessTypes
  import opened MoveTables

  /** The directions and deltas of the docs engine, in its own order. */
  const StraightDirs: seq<Coord> := [Coord(1, 0), Coord(-1, 0), Coord(0, 1), Coord(0, -1)]
  const DiagonalDirs: seq<Coord> := [Coord(1, 1), Coord(1, -1), Coord(-1, 1), Coord(-1, -1)]
  /** The queen's directions, which are also the king's deltas. */
  const AllDirs: seq<Coord> := StraightDirs + DiagonalDirs
  const KnightDeltas: seq<Coord> := [
    Coord(2, 1), Coord(2, -1), Coord(-2, 1), Coord(-2, -1),
    Coord(1, 2), Coord(1, -2), Coord(-1, 2), Coord(-1, -2)]

  lemma KingDeltasExact()
    ensures forall o :: o in AllDirs <==> KingStep(o.row, o.col)
  {
    forall o ensures o in AllDirs <==> KingStep(o.row, o.col) {
    }
  }

  lemma KnightDeltasExact()
    ensures forall o :: o in KnightDeltas <==> KnightJump(o.row, o.col)
  {
    forall o ensures o in KnightDeltas <==> KnightJump(o.row, o.col) {
    }
  }

  lemma AllDirsAreDirections()
    ensures forall d <- AllDirs :: IsDirection(d)
    ensures forall d <- StraightDirs :: IsDirection(d)
    ensures forall d <- DiagonalDirs :: IsDirection(d)
  {
  }

}

/**
  The piece rules of the second chess engine (docs/chess/chess.js): `slideMoves`,
  `jumpMoves` and every piece class's `getValidMoves` / `getAttackMoves`.  Unlike the main
  engine it has no precomputed tables: a sliding piece walks each direction from its own
  tile (the piece's `tile` back-reference, `row`/`col` here) until it leaves the board or
  meets a piece, and a jumping piece tries each delta.

  A walk in one direction means the same as the main engine's walk along a precomputed
  ray, so it is specified by `MoveTables.SlideAlong` over `MoveTables.Ray`.
 */
module DocsRules {
  import opened ChessTypes
  import opened MoveTables
  import opened DocsDirections

  // ---------------------------------------------------------------- slideMoves / jumpMoves

  /** `slideMoves(piece, board, directions)` for a piece of `color` on (r, c): the walks of
      the directions, concatenated in direction order. */
  function Slides(cells: Cells, r: int, c: int, dirs: seq<Coord>, color: Color): seq<Coord> {
    Concat(Walks(cells, r, c, dirs, color), |dirs|)
  }

  /** The walk of each direction: `MoveTables.SlideAlong` over the ray in that direction. */
  function Walks(cells: Cells, r: int, c: int, dirs: seq<Coord>, color: Color): (ws: seq<seq<Coord>>)
    ensures |ws| == |dirs|
  {
    seq(|dirs|, i requires 0 <= i < |dirs| => SlideAlong(cells, Ray(r, c, dirs[i]), color))
  }

  /** The first k sequences of `parts`, concatenated. */
  function Concat(parts: seq<seq<Coord>>, k: nat): seq<Coord>
    requires k <= |parts|
  {
    if k == 0 then [] else Concat(parts, k - 1) + parts[k - 1]
  }

  lemma {:induction false} ConcatMembers(parts: seq<seq<Coord>>, k: nat, t: Coord)
    requires k <= |parts|
    ensures t in Concat(parts, k) <==> exists i :: 0 <= i < k && t in parts[i]
  {
    if k > 0 {
      ConcatMembers(parts, k - 1, t);
      assert t in Concat(parts, k) <==> t in Concat(parts, k - 1) || t in parts[k - 1];
    }
  }

  /** `jumpMoves(piece, board, deltas)` for a piece of `color` on (r, c): the deltas whose
      tile exists and does not hold the mover's colour, in delta order. */
  function Jumps(cells: Cells, r: int, c: int, deltas: seq<Coord>, color: Color): seq<Coord> {
    JumpsUpTo(cells, r, c, deltas, color, |deltas|)
  }

  /** The squares `jumpMoves` keeps among the first k deltas. */
  function JumpsUpTo(cells: Cells, r: int, c: int, deltas: seq<Coord>, color: Color, k: nat): seq<Coord>
    requires k <= |deltas|
  {
    if k == 0 then []
    else
      var t := Coord(r + deltas[k - 1].row, c + deltas[k - 1].col);
      JumpsUpTo(cells, r, c, deltas, color, k - 1) +
      (if InBounds(t.row, t.col) && !HasColor(cells, t.row, t.col, color) then [t] else [])
  }

  /** The `while (true)` walk of `slideMoves` in direction d: step until off the board,
      push empty squares, push the first occupied square when it is the other colour. */
  method Walk(cells: Cells, row: int, col: int, d: Coord, color: Color) returns (moves: seq<Coord>)
    requires InBounds(row, col) && IsDirection(d)
    ensures moves == SlideAlong(cells, Ray(row, col, d), color)
  {
    moves := [];
    var r, c := row + d.row, col + d.col;
    ghost var i := 1;
    while true
      invariant 1 <= i <= 8 && Coord(r, c) == Step(row, col, d, i)
      invariant moves + SlideAlong(cells, RayFrom(row, col, d, i), color) == SlideAlong(cells, Ray(row, col, d), color)
      decreases 8 - i
    {
      var t := GetTile(cells, r, c);
      WalkStep(cells, row, col, d, color, i, moves);
      if t.None? {
        break;
      }
      if t.value.piece.None? {
        moves := moves + [Coord(r, c)];
      } else {
        if t.value.piece.value.color != color {
          moves := moves + [Coord(r, c)];
        }
        break;
      }
      r, c := r + d.row, c + d.col;
      i := i + 1;
    }
  }

  /** One step of the walk after `moves` were pushed: past the seventh step the walk is off
      the board and nothing is left to push; an empty square is pushed and the walk goes on;
      an occupied square ends it, pushed when it holds the other colour. */
  lemma WalkStep(cells: Cells, row: int, col: int, d: Coord, color: Color, i: int, moves: seq<Coord>)
    requires InBounds(row, col) && IsDirection(d) && 1 <= i <= 8
    ensures var t := Step(row, col, d, i);
            var rest := moves + SlideAlong(cells, RayFrom(row, col, d, i), color);
            && (i == 8 ==> !InBounds(t.row, t.col))
            && (!InBounds(t.row, t.col) ==> moves == rest)
            && (InBounds(t.row, t.col) && PieceAt(cells, t.row, t.col).None? ==>
                  i < 8 && (moves + [t]) + SlideAlong(cells, RayFrom(row, col, d, i + 1), color) == rest)
            && (InBounds(t.row, t.col) && HasColor(cells, t.row, t.col, color) ==> moves == rest)
            && (InBounds(t.row, t.col) && PieceAt(cells, t.row, t.col).Some? && !HasColor(cells, t.row, t.col, color) ==>
                  moves + [t] == rest)
  {
    var t := Step(row, col, d, i);
    if InBounds(t.row, t.col) && i < 8 {
      var ray := RayFrom(row, col, d, i);
      assert ray == [t] + RayFrom(row, col, d, i + 1);
      assert ray[1..] == RayFrom(row, col, d, i + 1);
      AppendAssoc(moves, [t], SlideAlong(cells, ray[1..], color));
    }
  }

  /** `slideMoves` */
  method SlideMoves(cells: Cells, row: int, col: int, color: Color, dirs: seq<Coord>) returns (moves: seq<Coord>)
    requires InBounds(row, col) && forall d <- dirs :: IsDirection(d)
    ensures moves == Slides(cells, row, col, dirs, color)
  {
    ghost var walks := Walks(cells, row, col, dirs, color);
    moves := [];
    for k := 0 to |dirs|
      invariant moves == Concat(walks, k)
    {
      assert dirs[k] in dirs;
      var walked := Walk(cells, row, col, dirs[k], color);
      assert walked == walks[k];
      moves := moves + walked;
    }
  }

  /** `jumpMoves` */
  method JumpMoves(cells: Cells, row: int, col: int, color: Color, deltas: seq<Coord>) returns (moves: seq<Coord>)
    ensures moves == Jumps(cells, row, col, deltas, color)
  {
    moves := [];
    for k := 0 to |deltas|
      invariant moves == JumpsUpTo(cells, row, col, deltas, color, k)
    {
      var t := GetTile(cells, row + deltas[k].row, col + deltas[k].col);
      if t.Some? && (t.value.piece.None? || t.value.piece.value.color != color) {
        moves := moves + [Coord(row + deltas[k].row, col + deltas[k].col)];
      }
    }
  }

  /** A sliding piece reaches exactly the squares at the end of a clear line in one of its
      directions: on the board, not of its own colour, with every square before it empty. */
  lemma SlidesMeaning(cells: Cells, r: int, c: int, dirs: seq<Coord>, color: Color, t: Coord)
    requires InBounds(r, c) && forall d <- dirs :: IsDirection(d)
    ensures t in Slides(cells, r, c, dirs, color) <==> exists d :: d in dirs && ClearLine(cells, r, c, d, color, t)
  {
    var walks := Walks(cells, r, c, dirs, color);
    ConcatMembers(walks, |dirs|, t);
    forall i | 0 <= i < |dirs|
      ensures t in walks[i] <==> ClearLine(cells, r, c, dirs[i], color, t)
    {
      assert dirs[i] in dirs;
      SlideAlongMembers(cells, Ray(r, c, dirs[i]), color, t);
      RayReach(cells, r, c, dirs[i], color, t);
    }
    if exists d :: d in dirs && ClearLine(cells, r, c, d, color, t) {
      var d :| d in dirs && ClearLine(cells, r, c, d, color, t);
      var i :| 0 <= i < |dirs| && dirs[i] == d;
      assert t in walks[i];
    }
  }

  /** The k-th delta adds its target to the squares of the first k - 1, when it is kept. */
  lemma JumpsUpToStep(cells: Cells, r: int, c: int, deltas: seq<Coord>, color: Color, k: nat, t: Coord)
    requires 0 < k <= |deltas|
    ensures t in JumpsUpTo(cells, r, c, deltas, color, k) <==>
            t in JumpsUpTo(cells, r, c, deltas, color, k - 1)
            || (t == Coord(r + deltas[k - 1].row, c + deltas[k - 1].col) && InBounds(t.row, t.col) && !HasColor(cells, t.row, t.col, color))
  {
  }

  lemma {:induction false} JumpsUpToMembers(cells: Cells, r: int, c: int, deltas: seq<Coord>, color: Color, k: nat, t: Coord)
    requires k <= |deltas|
    ensures t in JumpsUpTo(cells, r, c, deltas, color, k) <==>
            InBounds(t.row, t.col) && !HasColor(cells, t.row, t.col, color) && Coord(t.row - r, t.col - c) in deltas[..k]
  {
    if k > 0 {
      JumpsUpToMembers(cells, r, c, deltas, color, k - 1, t);
      JumpsUpToStep(cells, r, c, deltas, color, k, t);
      var d := deltas[k - 1];
      assert deltas[..k] == deltas[..k - 1] + [d];
      assert t == Coord(r + d.row, c + d.col) <==> Coord(t.row - r, t.col - c) == d;
    }
  }

  /** A jumping piece reaches exactly the in-bounds squares one of its deltas away that do
      not hold its own colour. */
  lemma JumpsMeaning(cells: Cells, r: int, c: int, deltas: seq<Coord>, color: Color, t: Coord)
    ensures t in Jumps(cells, r, c, deltas, color) <==>
              InBounds(t.row, t.col) && Coord(t.row - r, t.col - c) in deltas && !HasColor(cells, t.row, t.col, color)
  {
    JumpsUpToMembers(cells, r, c, deltas, color, |deltas|, t);
    assert deltas[..|deltas|] == deltas;
  }

  // ---------------------------------------------------------------- pawns

  /** `board.getTile(r, c)?.piece === null`: the tile exists and is empty. */
  predicate EmptyAt(cells: Cells, r: int, c: int) {
    InBounds(r, c) && PieceAt(cells, r, c).None?
  }

  /** The forward part of `Pawn.getValidMoves`: one step onto an empty tile, then two steps
      when the pawn has not moved and that tile is empty too. */
  function PawnAdvance(cells: Cells, p: Piece): seq<Coord> {
    var dir := Direction(p.color);
    if EmptyAt(cells, p.row + dir, p.col) then
      [Coord(p.row + dir, p.col)] +
      (if p.firstMove && EmptyAt(cells, p.row + 2 * dir, p.col) then [Coord(p.row + 2 * dir, p.col)] else [])
    else []
  }

  /** One capture of `Pawn.getValidMoves`: the diagonal square ahead in column offset dc,
      when it holds a piece of the other colour. */
  function PawnCapture(cells: Cells, p: Piece, dc: int): seq<Coord> {
    var t := Coord(p.row + Direction(p.color), p.col + dc);
    if InBounds(t.row, t.col) && PieceAt(cells, t.row, t.col).Some? && PieceAt(cells, t.row, t.col).value.color != p.color
    then [t] else []
  }

  /** One en-passant move of `Pawn.getValidMoves`: the diagonal square ahead in column offset
      dc, when the tile BESIDE the pawn in that column carries the en-passant flag.  Nothing
      checks that the square ahead is on the board or free. */
  function PawnEnPassant(cells: Cells, p: Piece, dc: int): seq<Coord> {
    if InBounds(p.row, p.col + dc) && FlagAt(cells, p.row, p.col + dc)
    then [Coord(p.row + Direction(p.color), p.col + dc)] else []
  }

  /** `Pawn.getValidMoves` (also its `getAttackMoves`): advances, captures to the left and
      right, then en-passant moves to the left and right. */
  function PawnMoves(cells: Cells, p: Piece): seq<Coord> {
    PawnAdvance(cells, p) + PawnCaptures(cells, p) + PawnPassing(cells, p)
  }

  function PawnCaptures(cells: Cells, p: Piece): seq<Coord> {
    PawnCapture(cells, p, -1) + PawnCapture(cells, p, 1)
  }

  function PawnPassing(cells: Cells, p: Piece): seq<Coord> {
    PawnEnPassant(cells, p, -1) + PawnEnPassant(cells, p, 1)
  }

  /** `Pawn.getValidMoves`: the forward moves, then the captures loop, then the en-passant
      loop. */
  method GetPawnMoves(cells: Cells, p: Piece) returns (moves: seq<Coord>)
    ensures moves == PawnMoves(cells, p)
  {
    var dir := if p.color == White then -1 else 1;
    moves := [];
    var row, col := p.row, p.col;
    var ahead := GetTile(cells, row + dir, col);
    if ahead.Some? && ahead.value.piece.None? {
      moves := moves + [Coord(row + dir, col)];
      var twoAhead := GetTile(cells, row + 2 * dir, col);
      if p.firstMove && twoAhead.Some? && twoAhead.value.piece.None? {
        moves := moves + [Coord(row + 2 * dir, col)];
      }
    }
    assert moves == PawnAdvance(cells, p);
    var captures := CaptureMoves(cells, p, dir);
    var passing := PassingMoves(cells, p, dir);
    moves := moves + captures + passing;
  }

  /** The `// captures` loop of `Pawn.getValidMoves`. */
  method CaptureMoves(cells: Cells, p: Piece, dir: int) returns (moves: seq<Coord>)
    requires dir == Direction(p.color)
    ensures moves == PawnCaptures(cells, p)
  {
    moves := [];
    var offsets := [-1, 1];
    for k := 0 to 2
      invariant k == 1 ==> moves == PawnCapture(cells, p, -1)
      invariant k == 2 ==> moves == PawnCapture(cells, p, -1) + PawnCapture(cells, p, 1)
      invariant k == 0 ==> moves == []
    {
      var dc := offsets[k];
      var target := GetTile(cells, p.row + dir, p.col + dc);
      if target.Some? && target.value.piece.Some? && target.value.piece.value.color != p.color {
        moves := moves + [Coord(p.row + dir, p.col + dc)];
      }
    }
  }

  /** The `// en passant` loop of `Pawn.getValidMoves`. */
  method PassingMoves(cells: Cells, p: Piece, dir: int) returns (moves: seq<Coord>)
    requires dir == Direction(p.color)
    ensures moves == PawnPassing(cells, p)
  {
    moves := [];
    var offsets := [-1, 1];
    for k := 0 to 2
      invariant k == 1 ==> moves == PawnEnPassant(cells, p, -1)
      invariant k == 2 ==> moves == PawnEnPassant(cells, p, -1) + PawnEnPassant(cells, p, 1)
      invariant k == 0 ==> moves == []
    {
      var dc := offsets[k];
      var target := GetTile(cells, p.row, p.col + dc);
      if target.Some? && target.value.enPassant {
        moves := moves + [Coord(p.row + dir, p.col + dc)];
      }
    }
  }

  /** A pawn moves one row forward onto an empty square, two rows forward from its first
      move over two empty squares, diagonally forward onto a piece of the other colour, or
      diagonally forward beside a flagged tile. */
  lemma PawnMovesExact(cells: Cells, p: Piece, t: Coord)
    ensures t in PawnMoves(cells, p) <==>
      var dir := Direction(p.color);
      || (t == Coord(p.row + dir, p.col) && EmptyAt(cells, t.row, t.col))
      || (t == Coord(p.row + 2 * dir, p.col) && p.firstMove && EmptyAt(cells, p.row + dir, p.col) && EmptyAt(cells, t.row, t.col))
      || (t.row == p.row + dir && Abs(t.col - p.col) == 1 &&
          ((InBounds(t.row, t.col) && PieceAt(cells, t.row, t.col).Some? && PieceAt(cells, t.row, t.col).value.color != p.color)
           || (InBounds(p.row, t.col) && FlagAt(cells, p.row, t.col))))
  {
    assert t in PawnMoves(cells, p) <==>
           t in PawnAdvance(cells, p) || t in PawnCaptures(cells, p) || t in PawnPassing(cells, p);
    PawnAdvanceMembers(cells, p, t);
    PawnDiagonalMembers(cells, p, t);
  }

  /** The forward part of `PawnMovesExact`. */
  lemma PawnAdvanceMembers(cells: Cells, p: Piece, t: Coord)
    ensures t in PawnAdvance(cells, p) <==>
      var dir := Direction(p.color);
      || (t == Coord(p.row + dir, p.col) && EmptyAt(cells, t.row, t.col))
      || (t == Coord(p.row + 2 * dir, p.col) && p.firstMove && EmptyAt(cells, p.row + dir, p.col) && EmptyAt(cells, t.row, t.col))
  {
  }

  /** The diagonal part of `PawnMovesExact`: captures and en-passant moves. */
  lemma PawnDiagonalMembers(cells: Cells, p: Piece, t: Coord)
    ensures t in PawnCaptures(cells, p) || t in PawnPassing(cells, p) <==>
      var dir := Direction(p.color);
      t.row == p.row + dir && Abs(t.col - p.col) == 1 &&
      ((InBounds(t.row, t.col) && PieceAt(cells, t.row, t.col).Some? && PieceAt(cells, t.row, t.col).value.color != p.color)
       || (InBounds(p.row, t.col) && FlagAt(cells, p.row, t.col)))
  {
    assert t in PawnCaptures(cells, p) <==> t in PawnCapture(cells, p, -1) || t in PawnCapture(cells, p, 1);
    assert t in PawnPassing(cells, p) <==> t in PawnEnPassant(cells, p, -1) || t in PawnEnPassant(cells, p, 1);
    assert Abs(t.col - p.col) == 1 <==> t.col == p.col - 1 || t.col == p.col + 1;
  }

  /** A pawn never moves sideways or backwards, and never more than two rows. */
  lemma PawnMovesForward(cells: Cells, p: Piece, t: Coord)
    requires t in PawnMoves(cells, p)
    ensures t.row - p.row == Direction(p.color) || t.row - p.row == 2 * Direction(p.color)
    ensures Abs(t.col - p.col) <= 1
    ensures t.row - p.row == 2 * Direction(p.color) ==> p.firstMove && t.col == p.col
  {
    PawnMovesExact(cells, p, t);
  }

  // ---------------------------------------------------------------- the other pieces

  /** `getAttackMoves`: the squares a piece attacks.  For every kind but the king this is its
      `getValidMoves`; the king attacks its eight neighbours only, never a castling square. */
  function AttackMoves(cells: Cells, p: Piece): seq<Coord> {
    match p.kind
    case Pawn => PawnMoves(cells, p)
    case Rook => Slides(cells, p.row, p.col, StraightDirs, p.color)
    case Bishop => Slides(cells, p.row, p.col, DiagonalDirs, p.color)
    case Queen => Slides(cells, p.row, p.col, AllDirs, p.color)
    case Knight => Jumps(cells, p.row, p.col, KnightDeltas, p.color)
    case King => Jumps(cells, p.row, p.col, AllDirs, p.color)
  }

  /** The tile (r, c) exists and holds a rook, of either colour, that has not moved. */
  predicate RookReady(cells: Cells, r: int, c: int) {
    InBounds(r, c) && PieceAt(cells, r, c).Some? &&
    PieceAt(cells, r, c).value.kind == Rook && PieceAt(cells, r, c).value.firstMove
  }

  /** The castling part of `King.getValidMoves`, once the king is known to be unmoved and not
      in check: two columns right when the rook in column 7 is unmoved and columns 5 and 6 are
      empty, two columns left when the rook in column 0 is unmoved and columns 1 to 3 are
      empty. */
  function Castles(cells: Cells, p: Piece): seq<Coord> {
    var r := p.row;
    (if RookReady(cells, r, 7) && EmptyAt(cells, r, 5) && EmptyAt(cells, r, 6)
     then [Coord(r, p.col + 2)] else [])
    + (if RookReady(cells, r, 0) && EmptyAt(cells, r, 1) && EmptyAt(cells, r, 2) && EmptyAt(cells, r, 3)
       then [Coord(r, p.col - 2)] else [])
  }

  /** The piece on (i, j) belongs to the opponent of `color` and attacks (r, c). */
  predicate AttackerAt(cells: Cells, i: int, j: int, r: int, c: int, color: Color)
    requires InBounds(i, j)
  {
    PieceAt(cells, i, j).Some? && PieceAt(cells, i, j).value.color == Opponent(color) &&
    Coord(r, c) in AttackMoves(cells, PieceAt(cells, i, j).value)
  }

  /** `isCheck(r, c, color)`: some piece of the other colour attacks (r, c). */
  ghost predicate InCheck(cells: Cells, r: int, c: int, color: Color) {
    exists i, j :: InBounds(i, j) && AttackerAt(cells, i, j, r, c, color)
  }

  /** `getValidMoves` of every kind: the attacked squares, and for an unmoved king that is
      not in check also its castling squares. */
  ghost function MovesOf(cells: Cells, p: Piece): seq<Coord> {
    if p.kind == King && p.firstMove && !InCheck(cells, p.row, p.col, p.color)
    then AttackMoves(cells, p) + Castles(cells, p)
    else AttackMoves(cells, p)
  }

  /** The attack squares of the two jumping kinds: the king's eight directions and the
      knight's eight jumps. */
  lemma JumperAttackMoves(cells: Cells, p: Piece)
    ensures p.kind == King ==> AttackMoves(cells, p) == Jumps(cells, p.row, p.col, AllDirs, p.color)
    ensures p.kind == Knight ==> AttackMoves(cells, p) == Jumps(cells, p.row, p.col, KnightDeltas, p.color)
  {
    match p.kind
    case King =>
    case Knight =>
    case _ =>
  }

  /** A king attacks exactly its in-bounds neighbours that do not hold its own colour; in
      particular never a square two columns away. */
  lemma KingAttacks(cells: Cells, p: Piece, t: Coord)
    requires p.kind == King
    ensures t in AttackMoves(cells, p) <==>
              InBounds(t.row, t.col) && KingStep(t.row - p.row, t.col - p.col) && !HasColor(cells, t.row, t.col, p.color)
  {
    JumperAttackMoves(cells, p);
    JumpsMeaning(cells, p.row, p.col, AllDirs, p.color, t);
    KingDeltasExact();
  }

  /** A king's move of two columns is a castling move, offered only when the king has not
      moved, is not in check, and the rook on that side is unmoved with the squares between
      empty; conversely such a move is offered whenever those conditions hold. */
  lemma CastlingExact(cells: Cells, p: Piece, t: Coord)
    requires p.kind == King && t.row == p.row && Abs(t.col - p.col) == 2
    ensures t in MovesOf(cells, p) <==>
      && p.firstMove && !InCheck(cells, p.row, p.col, p.color)
      && ((t.col == p.col + 2 && RookReady(cells, p.row, 7) && EmptyAt(cells, p.row, 5) && EmptyAt(cells, p.row, 6))
          || (t.col == p.col - 2 && RookReady(cells, p.row, 0) &&
              EmptyAt(cells, p.row, 1) && EmptyAt(cells, p.row, 2) && EmptyAt(cells, p.row, 3)))
  {
    KingAttacks(cells, p, t);
  }

  /** A knight goes exactly to the in-bounds squares a knight's jump away that do not hold
      its own colour. */
  lemma KnightAttacks(cells: Cells, p: Piece, t: Coord)
    requires p.kind == Knight
    ensures t in AttackMoves(cells, p) <==>
              InBounds(t.row, t.col) && KnightJump(t.row - p.row, t.col - p.col) && !HasColor(cells, t.row, t.col, p.color)
  {
    JumperAttackMoves(cells, p);
    JumpsMeaning(cells, p.row, p.col, KnightDeltas, p.color, t);
    var delta := Coord(t.row - p.row, t.col - p.col);
    KnightDeltasExact();
    assert delta in KnightDeltas <==> KnightJump(delta.row, delta.col);
  }
}
