/**
  The `ValidMoves` helper of the main engine: tables of knight and king targets and of
  sliding rays, computed once per square, and the generators that filter them against the
  board.  The tables are described by the functions `KnightTargets`, `KingTargets`,
  `RookRays` and `BishopRays`; the class `ValidMoves` fills arrays with exactly those values.
 */
module MoveTables {
  import opened ChessTypes

  /** `potentialMoves` of `computeKnightMoves`, in source order. */
  const KnightOffsets: seq<Coord> := [
    Coord(-2, -1), Coord(-2, 1), Coord(-1, -2), Coord(-1, 2),
    Coord(1, -2), Coord(1, 2), Coord(2, -1), Coord(2, 1)]

  /** `potentialMoves` of `computeKingMoves`, in source order. */
  const KingOffsets: seq<Coord> := [
    Coord(-1, -1), Coord(-1, 0), Coord(-1, 1),
    Coord(0, -1), Coord(0, 1),
    Coord(1, -1), Coord(1, 0), Coord(1, 1)]

  /** `rookDirections` in key order: up, down, left, right. */
  const RookDirections: seq<Coord> := [Coord(-1, 0), Coord(1, 0), Coord(0, -1), Coord(0, 1)]

  /** `bishopDirections` in key order: upLeft, upRight, downLeft, downRight. */
  const BishopDirections: seq<Coord> := [Coord(-1, -1), Coord(-1, 1), Coord(1, -1), Coord(1, 1)]

  /** A king step: at most one row and one column away, and not standing still. */
  predicate KingStep(dr: int, dc: int) {
    -1 <= dr <= 1 && -1 <= dc <= 1 && !(dr == 0 && dc == 0)
  }

  /** A knight jump: two rows and one column, or one row and two columns. */
  predicate KnightJump(dr: int, dc: int) {
    (Abs(dr) == 2 && Abs(dc) == 1) || (Abs(dr) == 1 && Abs(dc) == 2)
  }

  /** The knight's offset list holds exactly the knight jumps. */
  lemma KnightOffsetsExact()
    ensures forall o :: o in KnightOffsets <==> KnightJump(o.row, o.col)
  {
    forall o ensures o in KnightOffsets <==> KnightJump(o.row, o.col) {
    }
  }

  /** The king's offset list holds exactly the king steps. */
  lemma KingOffsetsExact()
    ensures forall o :: o in KingOffsets <==> KingStep(o.row, o.col)
  {
    forall o ensures o in KingOffsets <==> KingStep(o.row, o.col) {
    }
  }

  predicate AllInBounds(ts: seq<Coord>) {
    forall t <- ts :: InBounds(t.row, t.col)
  }

  // ---------------------------------------------------------------- jump tables

  /** The in-bounds squares reached from (r, c) by the offsets, in offset order. */
  function JumpTargets(r: int, c: int, offsets: seq<Coord>): (ts: seq<Coord>)
    ensures AllInBounds(ts)
  {
    JumpTargetsFrom(r, c, offsets, 0)
  }

  /** The targets of offsets k, k+1, ... */
  function JumpTargetsFrom(r: int, c: int, offsets: seq<Coord>, k: nat): (ts: seq<Coord>)
    requires k <= |offsets|
    ensures AllInBounds(ts)
    decreases |offsets| - k
  {
    if k == |offsets| then []
    else
      var t := Coord(r + offsets[k].row, c + offsets[k].col);
      (if InBounds(t.row, t.col) then [t] else []) + JumpTargetsFrom(r, c, offsets, k + 1)
  }

  lemma {:induction false} JumpTargetsFromMembers(r: int, c: int, offsets: seq<Coord>, k: nat, t: Coord)
    requires k <= |offsets|
    ensures t in JumpTargetsFrom(r, c, offsets, k) <==>
            InBounds(t.row, t.col) && Coord(t.row - r, t.col - c) in offsets[k..]
    decreases |offsets| - k
  {
    if k < |offsets| {
      JumpTargetsFromMembers(r, c, offsets, k + 1, t);
      assert offsets[k..] == [offsets[k]] + offsets[k + 1..];
    }
  }

  lemma JumpTargetsMembers(r: int, c: int, offsets: seq<Coord>, t: Coord)
    ensures t in JumpTargets(r, c, offsets) <==>
            InBounds(t.row, t.col) && Coord(t.row - r, t.col - c) in offsets
  {
    JumpTargetsFromMembers(r, c, offsets, 0, t);
    assert offsets[0..] == offsets;
  }

  function KnightTargets(r: int, c: int): seq<Coord> {
    JumpTargets(r, c, KnightOffsets)
  }

  function KingTargets(r: int, c: int): seq<Coord> {
    JumpTargets(r, c, KingOffsets)
  }

  /** The precomputed knight targets are exactly the in-bounds squares a knight jump away. */
  lemma KnightTargetsExact(r: int, c: int, t: Coord)
    ensures t in KnightTargets(r, c) <==> InBounds(t.row, t.col) && KnightJump(t.row - r, t.col - c)
  {
    KnightOffsetsExact();
    KnightTargetsOf(r, c, KnightOffsets, t);
  }

  lemma KnightTargetsOf(r: int, c: int, offsets: seq<Coord>, t: Coord)
    requires forall o :: o in offsets <==> KnightJump(o.row, o.col)
    ensures t in JumpTargets(r, c, offsets) <==> InBounds(t.row, t.col) && KnightJump(t.row - r, t.col - c)
  {
    JumpTargetsMembers(r, c, offsets, t);
  }

  /** The precomputed king targets are exactly the in-bounds squares a king step away. */
  lemma KingTargetsExact(r: int, c: int, t: Coord)
    ensures t in KingTargets(r, c) <==> InBounds(t.row, t.col) && KingStep(t.row - r, t.col - c)
  {
    KingOffsetsExact();
    KingTargetsOf(r, c, KingOffsets, t);
  }

  lemma KingTargetsOf(r: int, c: int, offsets: seq<Coord>, t: Coord)
    requires forall o :: o in offsets <==> KingStep(o.row, o.col)
    ensures t in JumpTargets(r, c, offsets) <==> InBounds(t.row, t.col) && KingStep(t.row - r, t.col - c)
  {
    JumpTargetsMembers(r, c, offsets, t);
  }

  /** `computeKnightMoves` / `computeKingMoves`: one pass over the offsets. */
  method ComputeJumpMoves(r: int, c: int, offsets: seq<Coord>) returns (moves: seq<Coord>)
    ensures moves == JumpTargets(r, c, offsets)
  {
    moves := [];
    for k := 0 to |offsets|
      invariant moves + JumpTargetsFrom(r, c, offsets, k) == JumpTargets(r, c, offsets)
    {
      var newRow := r + offsets[k].row;
      var newCol := c + offsets[k].col;
      if newRow >= 0 && newRow < 8 && newCol >= 0 && newCol < 8 {
        assert JumpTargetsFrom(r, c, offsets, k) == [Coord(newRow, newCol)] + JumpTargetsFrom(r, c, offsets, k + 1);
        moves := moves + [Coord(newRow, newCol)];
      } else {
        assert JumpTargetsFrom(r, c, offsets, k) == JumpTargetsFrom(r, c, offsets, k + 1);
      }
    }
  }

  /** `computeKnightMoves` */
  method ComputeKnightMoves(r: int, c: int) returns (moves: seq<Coord>)
    ensures moves == KnightTargets(r, c)
  {
    moves := ComputeJumpMoves(r, c, KnightOffsets);
  }

  /** `computeKingMoves` */
  method ComputeKingMoves(r: int, c: int) returns (moves: seq<Coord>)
    ensures moves == KingTargets(r, c)
  {
    moves := ComputeJumpMoves(r, c, KingOffsets);
  }

  // ---------------------------------------------------------------- rays

  predicate IsDirection(d: Coord) {
    -1 <= d.row <= 1 && -1 <= d.col <= 1 && d != Coord(0, 0)
  }

  /** `x + d * i` for a direction component d in {-1, 0, 1}. */
  function Along(x: int, d: int, i: int): int {
    if d == 1 then x + i else if d == -1 then x - i else x
  }

  function Step(r: int, c: int, d: Coord, i: int): Coord {
    Coord(Along(r, d.row, i), Along(c, d.col, i))
  }

  /** Steps i, i+1, ... of the ray from (r, c), up to step 7, stopping at the first one off
      the board. */
  function RayFrom(r: int, c: int, d: Coord, i: int): (ray: seq<Coord>)
    requires 1 <= i <= 8
    ensures AllInBounds(ray)
    decreases 8 - i
  {
    var t := Step(r, c, d, i);
    if i < 8 && InBounds(t.row, t.col) then [t] + RayFrom(r, c, d, i + 1) else []
  }

  function Ray(r: int, c: int, d: Coord): seq<Coord> {
    RayFrom(r, c, d, 1)
  }

  lemma {:induction false} RayFromIndex(r: int, c: int, d: Coord, i: int, k: int)
    requires 1 <= i <= 8
    requires 0 <= k < |RayFrom(r, c, d, i)|
    ensures RayFrom(r, c, d, i)[k] == Step(r, c, d, i + k)
    decreases 8 - i
  {
    if k > 0 {
      RayFromIndex(r, c, d, i + 1, k - 1);
    }
  }

  lemma {:induction false} RayFromLength(r: int, c: int, d: Coord, i: int, j: int)
    requires InBounds(r, c) && IsDirection(d)
    requires 1 <= i <= j < 8
    requires InBounds(Step(r, c, d, j).row, Step(r, c, d, j).col)
    ensures j - i < |RayFrom(r, c, d, i)|
    decreases 8 - i
  {
    if i < j {
      RayFromLength(r, c, d, i + 1, j);
    }
  }

  /** The k-th square of a ray is k+1 steps from the origin, and a ray holds every in-bounds
      step: rays are the squares `computeSlidingMoves` lists. */
  lemma RayShape(r: int, c: int, d: Coord)
    requires InBounds(r, c) && IsDirection(d)
    ensures forall k :: 0 <= k < |Ray(r, c, d)| ==> Ray(r, c, d)[k] == Step(r, c, d, k + 1)
    ensures forall j :: 1 <= j < 8 && InBounds(Step(r, c, d, j).row, Step(r, c, d, j).col) ==>
              j - 1 < |Ray(r, c, d)|
  {
    forall k | 0 <= k < |Ray(r, c, d)| ensures Ray(r, c, d)[k] == Step(r, c, d, k + 1) {
      RayFromIndex(r, c, d, 1, k);
    }
    forall j | 1 <= j < 8 && InBounds(Step(r, c, d, j).row, Step(r, c, d, j).col)
      ensures j - 1 < |Ray(r, c, d)|
    {
      RayFromLength(r, c, d, 1, j);
    }
  }

  /** One ray per direction, in direction order. */
  function Rays(r: int, c: int, dirs: seq<Coord>): (rays: seq<seq<Coord>>)
    ensures forall ray <- rays :: AllInBounds(ray)
  {
    RaysFrom(r, c, dirs, 0)
  }

  /** The rays of directions k, k+1, ... */
  function RaysFrom(r: int, c: int, dirs: seq<Coord>, k: nat): (rays: seq<seq<Coord>>)
    requires k <= |dirs|
    ensures forall ray <- rays :: AllInBounds(ray)
    decreases |dirs| - k
  {
    if k == |dirs| then [] else [Ray(r, c, dirs[k])] + RaysFrom(r, c, dirs, k + 1)
  }

  function RookRays(r: int, c: int): seq<seq<Coord>> {
    Rays(r, c, RookDirections)
  }

  function BishopRays(r: int, c: int): seq<seq<Coord>> {
    Rays(r, c, BishopDirections)
  }

  /** One direction of `computeSlidingMoves`: steps 1..7, stopping at the first off the board. */
  method ComputeRay(r: int, c: int, d: Coord) returns (ray: seq<Coord>)
    ensures ray == Ray(r, c, d)
  {
    ray := [];
    var i := 1;
    while i < 8
      invariant 1 <= i <= 8
      invariant ray + RayFrom(r, c, d, i) == Ray(r, c, d)
    {
      var t := Step(r, c, d, i);
      if InBounds(t.row, t.col) {
        assert RayFrom(r, c, d, i) == [t] + RayFrom(r, c, d, i + 1);
        ray := ray + [t];
      } else {
        break;
      }
      i := i + 1;
    }
  }

  /** `computeSlidingMoves`: one ray per direction, in direction order. */
  method ComputeSlidingMoves(r: int, c: int, dirs: seq<Coord>) returns (rays: seq<seq<Coord>>)
    ensures rays == Rays(r, c, dirs)
  {
    rays := [];
    for k := 0 to |dirs|
      invariant rays + RaysFrom(r, c, dirs, k) == Rays(r, c, dirs)
    {
      var ray := ComputeRay(r, c, dirs[k]);
      rays := rays + [ray];
    }
  }

  /** `computeSlidingMoves(i, j, rookDirections)` */
  method ComputeRookRays(r: int, c: int) returns (rays: seq<seq<Coord>>)
    ensures rays == RookRays(r, c)
  {
    rays := ComputeSlidingMoves(r, c, RookDirections);
  }

  /** `computeSlidingMoves(i, j, bishopDirections)` */
  method ComputeBishopRays(r: int, c: int) returns (rays: seq<seq<Coord>>)
    ensures rays == BishopRays(r, c)
  {
    rays := ComputeSlidingMoves(r, c, BishopDirections);
  }

  /** The four table entries of square (i, j). */
  ghost predicate EntryOk(kn: seq<Coord>, kg: seq<Coord>, rk: seq<seq<Coord>>, bs: seq<seq<Coord>>, i: int, j: int) {
    kn == KnightTargets(i, j) && kg == KingTargets(i, j) && rk == RookRays(i, j) && bs == BishopRays(i, j)
  }

  /** The precomputed tables of the `ValidMoves` object, indexed [row][col]. */
  class ValidMoves {
    var knightMoves: seq<seq<seq<Coord>>>
    var kingMoves: seq<seq<seq<Coord>>>
    var rookMoves: seq<seq<seq<seq<Coord>>>>
    var bishopMoves: seq<seq<seq<seq<Coord>>>>

    ghost predicate Precomputed()
      reads this
    {
      && |knightMoves| == |kingMoves| == |rookMoves| == |bishopMoves| == 8
      && forall i :: 0 <= i < 8 ==>
           RowOk(knightMoves[i], kingMoves[i], rookMoves[i], bishopMoves[i], i)
    }

    /** `constructor` + `precompute`: fill every square's entry of the four tables. */
    constructor ()
      ensures Precomputed()
    {
      var kn, kg, rk, bs := [], [], [], [];
      for i := 0 to 8
        invariant |kn| == |kg| == |rk| == |bs| == i
        invariant forall i' :: 0 <= i' < i ==> RowOk(kn[i'], kg[i'], rk[i'], bs[i'], i')
      {
        var knRow, kgRow, rkRow, bsRow := PrecomputeRow(i);
        kn, kg, rk, bs := kn + [knRow], kg + [kgRow], rk + [rkRow], bs + [bsRow];
      }
      knightMoves, kingMoves, rookMoves, bishopMoves := kn, kg, rk, bs;
    }

    /** `getKnightMoves(row, col, color, board)`: the table entry without own-colour targets. */
    method GetKnightMoves(r: int, c: int, color: Color, cells: Cells) returns (moves: seq<Coord>)
      requires Precomputed() && InBounds(r, c)
      ensures moves == KnightMoves(cells, r, c, color)
    {
      assert EntryOk(knightMoves[r][c], kingMoves[r][c], rookMoves[r][c], bishopMoves[r][c], r, c);
      moves := NotOwn(cells, knightMoves[r][c], color);
    }

    /** `getKingMoves(row, col, color, board)` */
    method GetKingMoves(r: int, c: int, color: Color, cells: Cells) returns (moves: seq<Coord>)
      requires Precomputed() && InBounds(r, c)
      ensures moves == KingMoves(cells, r, c, color)
    {
      assert EntryOk(knightMoves[r][c], kingMoves[r][c], rookMoves[r][c], bishopMoves[r][c], r, c);
      moves := NotOwn(cells, kingMoves[r][c], color);
    }

    /** The raw king entry of (r, c), which `isCheck` reads without filtering. */
    lemma KingEntry(r: int, c: int)
      requires Precomputed() && InBounds(r, c)
      ensures kingMoves[r][c] == KingTargets(r, c)
    {
      assert EntryOk(knightMoves[r][c], kingMoves[r][c], rookMoves[r][c], bishopMoves[r][c], r, c);
    }

    /** The precomputed entries of (r, c), as the table functions describe them. */
    lemma Entry(r: int, c: int)
      requires Precomputed() && InBounds(r, c)
      ensures knightMoves[r][c] == KnightTargets(r, c) && kingMoves[r][c] == KingTargets(r, c)
      ensures rookMoves[r][c] == RookRays(r, c) && bishopMoves[r][c] == BishopRays(r, c)
    {
      assert RowOk(knightMoves[r], kingMoves[r], rookMoves[r], bishopMoves[r], r);
    }
  }

  ghost predicate RowOk(kn: seq<seq<Coord>>, kg: seq<seq<Coord>>, rk: seq<seq<seq<Coord>>>,
                        bs: seq<seq<seq<Coord>>>, i: int) {
    && |kn| == |kg| == |rk| == |bs| == 8
    && forall j :: 0 <= j < 8 ==> EntryOk(kn[j], kg[j], rk[j], bs[j], i, j)
  }

  /** The inner loop of `precompute`: the entries of row i. */
  method PrecomputeRow(i: int)
    returns (kn: seq<seq<Coord>>, kg: seq<seq<Coord>>, rk: seq<seq<seq<Coord>>>, bs: seq<seq<seq<Coord>>>)
    ensures RowOk(kn, kg, rk, bs, i)
  {
    kn, kg, rk, bs := [], [], [], [];
    for j := 0 to 8
      invariant |kn| == |kg| == |rk| == |bs| == j
      invariant forall j' :: 0 <= j' < j ==> EntryOk(kn[j'], kg[j'], rk[j'], bs[j'], i, j')
    {
      var knight, king, rook, bishop := PrecomputeEntry(i, j);
      RowExtend(kn, kg, rk, bs, i, knight, king, rook, bishop);
      kn, kg, rk, bs := kn + [knight], kg + [king], rk + [rook], bs + [bishop];
    }
  }

  lemma RowExtend(kn: seq<seq<Coord>>, kg: seq<seq<Coord>>, rk: seq<seq<seq<Coord>>>, bs: seq<seq<seq<Coord>>>, i: int,
                  knight: seq<Coord>, king: seq<Coord>, rook: seq<seq<Coord>>, bishop: seq<seq<Coord>>)
    requires |kn| == |kg| == |rk| == |bs|
    requires forall j' :: 0 <= j' < |kn| ==> EntryOk(kn[j'], kg[j'], rk[j'], bs[j'], i, j')
    requires EntryOk(knight, king, rook, bishop, i, |kn|)
    ensures forall j' :: 0 <= j' < |kn| + 1 ==>
              EntryOk((kn + [knight])[j'], (kg + [king])[j'], (rk + [rook])[j'], (bs + [bishop])[j'], i, j')
  {
    forall j' | 0 <= j' < |kn| + 1
      ensures EntryOk((kn + [knight])[j'], (kg + [king])[j'], (rk + [rook])[j'], (bs + [bishop])[j'], i, j')
    {
      if j' < |kn| {
        assert (kn + [knight])[j'] == kn[j'] && (kg + [king])[j'] == kg[j'];
        assert (rk + [rook])[j'] == rk[j'] && (bs + [bishop])[j'] == bs[j'];
      }
    }
  }

  /** The body of the loops of `precompute`: the four entries of square (i, j). */
  method PrecomputeEntry(i: int, j: int)
    returns (knight: seq<Coord>, king: seq<Coord>, rook: seq<seq<Coord>>, bishop: seq<seq<Coord>>)
    ensures EntryOk(knight, king, rook, bishop, i, j)
  {
    knight := ComputeKnightMoves(i, j);
    king := ComputeKingMoves(i, j);
    rook := ComputeRookRays(i, j);
    bishop := ComputeBishopRays(i, j);
  }

  // ---------------------------------------------------------------- generators

  /** Index of the first occupied square of the ray, or |ray| when every square is empty. */
  function FirstOccupied(cells: Cells, ray: seq<Coord>): (k: nat)
    requires AllInBounds(ray)
    ensures k <= |ray|
    ensures forall j :: 0 <= j < k ==> PieceAt(cells, ray[j].row, ray[j].col).None?
    ensures k < |ray| ==> PieceAt(cells, ray[k].row, ray[k].col).Some?
    decreases |ray|
  {
    if ray == [] then 0
    else if PieceAt(cells, ray[0].row, ray[0].col).Some? then 0
    else
      var rest := FirstOccupied(cells, ray[1..]);
      assert forall j :: 1 <= j <= rest ==> ray[j] == ray[1..][j - 1];
      1 + rest
  }

  /** One direction of `getSlidingMoves`: empty squares are taken, the first occupied
      square is taken when it holds the other colour, and the walk stops there. */
  function SlideAlong(cells: Cells, ray: seq<Coord>, color: Color): seq<Coord>
    requires AllInBounds(ray)
    decreases |ray|
  {
    if ray == [] then []
    else
      var occupant := PieceAt(cells, ray[0].row, ray[0].col);
      if occupant.Some? then (if occupant.value.color != color then [ray[0]] else [])
      else [ray[0]] + SlideAlong(cells, ray[1..], color)
  }

  /** The squares of a ray before its first occupied square, and that square exactly when
      its occupant has the other colour. */
  lemma {:induction false} SlideAlongShape(cells: Cells, ray: seq<Coord>, color: Color)
    requires AllInBounds(ray)
    ensures var k := FirstOccupied(cells, ray);
            SlideAlong(cells, ray, color) ==
              ray[..k] + (if k < |ray| && !HasColor(cells, ray[k].row, ray[k].col, color) then [ray[k]] else [])
    decreases |ray|
  {
    if ray != [] && PieceAt(cells, ray[0].row, ray[0].col).None? {
      var tail := ray[1..];
      SlideAlongShape(cells, tail, color);
      var k := FirstOccupied(cells, tail);
      assert FirstOccupied(cells, ray) == k + 1;
      assert SlideAlong(cells, ray, color) == [ray[0]] + SlideAlong(cells, tail, color);
      assert ray[..k + 1] == [ray[0]] + tail[..k];
      assert k < |tail| ==> ray[k + 1] == tail[k];
    }
  }

  /** `getSlidingMoves`: the rays' results concatenated in ray order. */
  function SlidingMoves(cells: Cells, rays: seq<seq<Coord>>, color: Color): seq<Coord>
    requires forall ray <- rays :: AllInBounds(ray)
  {
    SlidingMovesFrom(cells, rays, color, 0)
  }

  /** The results of rays k, k+1, ... */
  function SlidingMovesFrom(cells: Cells, rays: seq<seq<Coord>>, color: Color, k: nat): seq<Coord>
    requires forall ray <- rays :: AllInBounds(ray)
    requires k <= |rays|
    decreases |rays| - k
  {
    if k == |rays| then [] else SlideAlong(cells, rays[k], color) + SlidingMovesFrom(cells, rays, color, k + 1)
  }

  /** The inner loop of `getSlidingMoves`: walk one ray, pushing squares until the first
      occupied one. */
  method SlideRay(cells: Cells, color: Color, ray: seq<Coord>) returns (moves: seq<Coord>)
    requires AllInBounds(ray)
    ensures moves == SlideAlong(cells, ray, color)
  {
    moves := [];
    var j := 0;
    while j < |ray|
      invariant 0 <= j <= |ray|
      invariant AllInBounds(ray[j..])
      invariant moves + SlideAlong(cells, ray[j..], color) == SlideAlong(cells, ray, color)
    {
      assert ray[j..][1..] == ray[j + 1..];
      var move := ray[j];
      assert move in ray[j..];
      var tile := GetTile(cells, move.row, move.col);
      if tile.value.piece.Some? {
        if tile.value.piece.value.color != color {
          moves := moves + [move];
        }
        break;
      }
      moves := moves + [move];
      j := j + 1;
    }
  }

  /** `getSlidingMoves(row, col, color, board, precomputedMoves)` */
  method GetSlidingMoves(cells: Cells, color: Color, rays: seq<seq<Coord>>) returns (moves: seq<Coord>)
    requires forall ray <- rays :: AllInBounds(ray)
    ensures moves == SlidingMoves(cells, rays, color)
  {
    moves := [];
    for k := 0 to |rays|
      invariant moves + SlidingMovesFrom(cells, rays, color, k) == SlidingMoves(cells, rays, color)
    {
      assert rays[k] in rays;
      var dirMoves := SlideRay(cells, color, rays[k]);
      SlidingMovesStep(cells, rays, color, k, moves);
      moves := moves + dirMoves;
    }
  }

  /** One turn of the loop over the rays keeps the collected prefix in step. */
  lemma SlidingMovesStep(cells: Cells, rays: seq<seq<Coord>>, color: Color, k: nat, moves: seq<Coord>)
    requires forall ray <- rays :: AllInBounds(ray)
    requires k < |rays| && moves + SlidingMovesFrom(cells, rays, color, k) == SlidingMoves(cells, rays, color)
    ensures (moves + SlideAlong(cells, rays[k], color)) + SlidingMovesFrom(cells, rays, color, k + 1)
              == SlidingMoves(cells, rays, color)
  {
    var here := SlideAlong(cells, rays[k], color);
    var rest := SlidingMovesFrom(cells, rays, color, k + 1);
    assert SlidingMovesFrom(cells, rays, color, k) == here + rest;
    AppendAssoc(moves, here, rest);
  }

  lemma AppendAssoc<T>(a: seq<T>, b: seq<T>, c: seq<T>)
    ensures (a + b) + c == a + (b + c)
  {
  }

  /** A loop that appends `here` to its prefix while the rest of the work shrinks from `mid`
      to `rest` keeps prefix and rest adding up to the goal. */
  lemma PrefixStep<T>(before: seq<T>, here: seq<T>, rest: seq<T>, mid: seq<T>, goal: seq<T>)
    requires before + mid == goal && here + rest == mid
    ensures (before + here) + rest == goal
  {
    AppendAssoc(before, here, rest);
  }

  /** The `.filter` of `getKnightMoves` / `getKingMoves`: drop targets holding the mover's colour. */
  function NotOwn(cells: Cells, targets: seq<Coord>, color: Color): (ts: seq<Coord>)
    requires AllInBounds(targets)
    ensures AllInBounds(ts)
    decreases |targets|
  {
    if targets == [] then []
    else
      var t := targets[0];
      (if !HasColor(cells, t.row, t.col, color) then [t] else []) + NotOwn(cells, targets[1..], color)
  }

  lemma {:induction false} NotOwnMembers(cells: Cells, targets: seq<Coord>, color: Color, t: Coord)
    requires AllInBounds(targets)
    ensures t in NotOwn(cells, targets, color) <==>
            t in targets && !HasColor(cells, t.row, t.col, color)
    decreases |targets|
  {
    if targets != [] {
      NotOwnMembers(cells, targets[1..], color, t);
      assert targets == [targets[0]] + targets[1..];
    }
  }

  /** `getKnightMoves` */
  function KnightMoves(cells: Cells, r: int, c: int, color: Color): seq<Coord> {
    NotOwn(cells, KnightTargets(r, c), color)
  }

  /** `getKingMoves` */
  function KingMoves(cells: Cells, r: int, c: int, color: Color): seq<Coord> {
    NotOwn(cells, KingTargets(r, c), color)
  }

  /** A knight may go exactly to the in-bounds squares a knight jump away that do not hold a
      piece of its own colour. */
  lemma KnightMovesExact(cells: Cells, r: int, c: int, color: Color, t: Coord)
    ensures t in KnightMoves(cells, r, c, color) <==>
            InBounds(t.row, t.col) && KnightJump(t.row - r, t.col - c) &&
            !HasColor(cells, t.row, t.col, color)
  {
    NotOwnMembers(cells, KnightTargets(r, c), color, t);
    KnightTargetsExact(r, c, t);
  }

  /** A king's steps (before the attack test) are exactly the in-bounds squares a king step
      away that do not hold a piece of its own colour. */
  lemma KingStepsExact(cells: Cells, r: int, c: int, color: Color, t: Coord)
    ensures t in KingMoves(cells, r, c, color) <==>
            InBounds(t.row, t.col) && KingStep(t.row - r, t.col - c) &&
            !HasColor(cells, t.row, t.col, color)
  {
    NotOwnMembers(cells, KingTargets(r, c), color, t);
    KingTargetsExact(r, c, t);
  }

  // ---------------------------------------------------------------- sliding reach

  /** The piece at the ray's origin reaches `t` along the ray: `t` is on the ray, every square
      before it is empty, and it does not hold a piece of the mover's colour. */
  ghost predicate ReachesAlong(cells: Cells, ray: seq<Coord>, color: Color, t: Coord)
    requires AllInBounds(ray)
  {
    exists k :: 0 <= k < |ray| && ray[k] == t && !HasColor(cells, ray[k].row, ray[k].col, color) &&
      forall j :: 0 <= j < k ==> PieceAt(cells, ray[j].row, ray[j].col).None?
  }

  lemma SlideAlongMembers(cells: Cells, ray: seq<Coord>, color: Color, t: Coord)
    requires AllInBounds(ray)
    ensures t in SlideAlong(cells, ray, color) <==> ReachesAlong(cells, ray, color, t)
  {
    SlideAlongShape(cells, ray, color);
    if t in SlideAlong(cells, ray, color) {
      SlideAlongReaches(cells, ray, color, t);
    }
    if ReachesAlong(cells, ray, color, t) {
      ReachesSlideAlong(cells, ray, color, t);
    }
  }

  lemma SlideAlongReaches(cells: Cells, ray: seq<Coord>, color: Color, t: Coord)
    requires AllInBounds(ray)
    requires var k := FirstOccupied(cells, ray);
             t in ray[..k] + (if k < |ray| && !HasColor(cells, ray[k].row, ray[k].col, color) then [ray[k]] else [])
    ensures ReachesAlong(cells, ray, color, t)
  {
    var k := FirstOccupied(cells, ray);
    if t in ray[..k] {
      var m :| 0 <= m < k && ray[..k][m] == t;
      assert ray[m] == t;
    } else {
      assert ray[k] == t;
    }
  }

  lemma ReachesSlideAlong(cells: Cells, ray: seq<Coord>, color: Color, t: Coord)
    requires AllInBounds(ray)
    requires ReachesAlong(cells, ray, color, t)
    ensures var k := FirstOccupied(cells, ray);
            t in ray[..k] + (if k < |ray| && !HasColor(cells, ray[k].row, ray[k].col, color) then [ray[k]] else [])
  {
    var k := FirstOccupied(cells, ray);
    var m :| 0 <= m < |ray| && ray[m] == t && !HasColor(cells, ray[m].row, ray[m].col, color) &&
             forall j :: 0 <= j < m ==> PieceAt(cells, ray[j].row, ray[j].col).None?;
    if m < k {
      assert ray[..k][m] == t;
    }
  }

  lemma {:induction false} SlidingMovesFromMembers(cells: Cells, rays: seq<seq<Coord>>, color: Color, k: nat, t: Coord)
    requires forall ray <- rays :: AllInBounds(ray)
    requires k <= |rays|
    ensures t in SlidingMovesFrom(cells, rays, color, k) <==>
            exists i :: k <= i < |rays| && ReachesAlong(cells, rays[i], color, t)
    decreases |rays| - k
  {
    if k < |rays| {
      SlideAlongMembers(cells, rays[k], color, t);
      SlidingMovesFromMembers(cells, rays, color, k + 1, t);
    }
  }

  lemma SlidingMovesMembers(cells: Cells, rays: seq<seq<Coord>>, color: Color, t: Coord)
    requires forall ray <- rays :: AllInBounds(ray)
    ensures t in SlidingMoves(cells, rays, color) <==>
            exists i :: 0 <= i < |rays| && ReachesAlong(cells, rays[i], color, t)
  {
    SlidingMovesFromMembers(cells, rays, color, 0, t);
  }

  /** From (r, c), the square `n` steps along `d` is reachable: every step before it is on the
      board and empty, and it does not hold a piece of the mover's colour. */
  ghost predicate ClearLine(cells: Cells, r: int, c: int, d: Coord, color: Color, t: Coord) {
    exists n :: 1 <= n < 8 && t == Step(r, c, d, n) && InBounds(t.row, t.col) &&
      !HasColor(cells, t.row, t.col, color) &&
      forall j :: 1 <= j < n ==>
        InBounds(Step(r, c, d, j).row, Step(r, c, d, j).col) &&
        PieceAt(cells, Step(r, c, d, j).row, Step(r, c, d, j).col).None?
  }

  lemma RayReach(cells: Cells, r: int, c: int, d: Coord, color: Color, t: Coord)
    requires InBounds(r, c) && IsDirection(d)
    ensures ReachesAlong(cells, Ray(r, c, d), color, t) <==> ClearLine(cells, r, c, d, color, t)
  {
    if ReachesAlong(cells, Ray(r, c, d), color, t) {
      RayReachLine(cells, r, c, d, color, t);
    }
    if ClearLine(cells, r, c, d, color, t) {
      LineReachRay(cells, r, c, d, color, t);
    }
  }

  lemma RayReachLine(cells: Cells, r: int, c: int, d: Coord, color: Color, t: Coord)
    requires InBounds(r, c) && IsDirection(d)
    requires ReachesAlong(cells, Ray(r, c, d), color, t)
    ensures ClearLine(cells, r, c, d, color, t)
  {
    var ray := Ray(r, c, d);
    RayShape(r, c, d);
    var k :| 0 <= k < |ray| && ray[k] == t && !HasColor(cells, ray[k].row, ray[k].col, color) &&
             forall j :: 0 <= j < k ==> PieceAt(cells, ray[j].row, ray[j].col).None?;
    assert |ray| <= 7 by { RayLength(r, c, d, 1); }
    forall j | 1 <= j < k + 1
      ensures InBounds(Step(r, c, d, j).row, Step(r, c, d, j).col)
      ensures PieceAt(cells, Step(r, c, d, j).row, Step(r, c, d, j).col).None?
    {
      assert ray[j - 1] == Step(r, c, d, j);
      assert ray[j - 1] in ray;
    }
    assert ray[k] in ray;
    assert 1 <= k + 1 < 8 && t == Step(r, c, d, k + 1);
  }

  lemma LineReachRay(cells: Cells, r: int, c: int, d: Coord, color: Color, t: Coord)
    requires InBounds(r, c) && IsDirection(d)
    requires ClearLine(cells, r, c, d, color, t)
    ensures ReachesAlong(cells, Ray(r, c, d), color, t)
  {
    var ray := Ray(r, c, d);
    RayShape(r, c, d);
    var n :| 1 <= n < 8 && t == Step(r, c, d, n) && InBounds(t.row, t.col) &&
             !HasColor(cells, t.row, t.col, color) &&
             forall j :: 1 <= j < n ==>
               InBounds(Step(r, c, d, j).row, Step(r, c, d, j).col) &&
               PieceAt(cells, Step(r, c, d, j).row, Step(r, c, d, j).col).None?;
    assert n - 1 < |ray|;
    forall j | 0 <= j < n - 1
      ensures PieceAt(cells, ray[j].row, ray[j].col).None?
    {
      assert ray[j] == Step(r, c, d, j + 1);
    }
    assert ray[n - 1] == t;
  }

  lemma {:induction false} RayLength(r: int, c: int, d: Coord, i: int)
    requires 1 <= i <= 8
    ensures |RayFrom(r, c, d, i)| <= 8 - i
    decreases 8 - i
  {
    if i < 8 {
      RayLength(r, c, d, i + 1);
    }
  }

  lemma {:induction false} RaysFromIndex(r: int, c: int, dirs: seq<Coord>, k: nat)
    requires k <= |dirs|
    ensures |RaysFrom(r, c, dirs, k)| == |dirs| - k
    ensures forall i :: 0 <= i < |dirs| - k ==> RaysFrom(r, c, dirs, k)[i] == Ray(r, c, dirs[k + i])
    decreases |dirs| - k
  {
    if k < |dirs| {
      RaysFromIndex(r, c, dirs, k + 1);
      var rest := RaysFrom(r, c, dirs, k + 1);
      var here := RaysFrom(r, c, dirs, k);
      assert here == [Ray(r, c, dirs[k])] + rest;
      forall i | 1 <= i < |dirs| - k ensures here[i] == Ray(r, c, dirs[k + i]) {
        assert here[i] == rest[i - 1];
        assert k + 1 + (i - 1) == k + i;
      }
    }
  }

  lemma RaysIndex(r: int, c: int, dirs: seq<Coord>)
    ensures |Rays(r, c, dirs)| == |dirs|
    ensures forall i :: 0 <= i < |dirs| ==> Rays(r, c, dirs)[i] == Ray(r, c, dirs[i])
  {
    RaysFromIndex(r, c, dirs, 0);
  }

  /** A sliding piece at (r, c) moving in the directions `dirs` reaches exactly the squares at
      the end of a clear line in one of those directions. */
  lemma SlidingReach(cells: Cells, r: int, c: int, dirs: seq<Coord>, color: Color, t: Coord)
    requires InBounds(r, c) && forall d <- dirs :: IsDirection(d)
    ensures t in SlidingMoves(cells, Rays(r, c, dirs), color) <==>
            exists d :: d in dirs && ClearLine(cells, r, c, d, color, t)
  {
    var rays := Rays(r, c, dirs);
    RaysIndex(r, c, dirs);
    SlidingMovesMembers(cells, rays, color, t);
    forall i | 0 <= i < |dirs|
      ensures ReachesAlong(cells, rays[i], color, t) <==> ClearLine(cells, r, c, dirs[i], color, t)
    {
      RayReach(cells, r, c, dirs[i], color, t);
    }
    if exists d :: d in dirs && ClearLine(cells, r, c, d, color, t) {
      var d :| d in dirs && ClearLine(cells, r, c, d, color, t);
      var i :| 0 <= i < |dirs| && dirs[i] == d;
      assert ReachesAlong(cells, rays[i], color, t);
    }
  }

  /** A rook's direction: one square along a row or a column. */
  predicate Orthogonal(d: Coord) {
    IsDirection(d) && (d.row == 0 || d.col == 0)
  }

  /** A bishop's direction: one square along both a row and a column. */
  predicate Diagonal(d: Coord) {
    IsDirection(d) && d.row != 0 && d.col != 0
  }

  lemma RookDirectionsExact()
    ensures forall d :: d in RookDirections <==> Orthogonal(d)
  {
    forall d ensures d in RookDirections <==> Orthogonal(d) {
    }
  }

  lemma BishopDirectionsExact()
    ensures forall d :: d in BishopDirections <==> Diagonal(d)
  {
    forall d ensures d in BishopDirections <==> Diagonal(d) {
    }
  }

  lemma OrthogonalRays(cells: Cells, r: int, c: int, dirs: seq<Coord>, color: Color, t: Coord)
    requires InBounds(r, c) && forall d :: d in dirs <==> Orthogonal(d)
    ensures t in SlidingMoves(cells, Rays(r, c, dirs), color) <==>
            exists d :: Orthogonal(d) && ClearLine(cells, r, c, d, color, t)
  {
    SlidingReach(cells, r, c, dirs, color, t);
  }

  lemma DiagonalRays(cells: Cells, r: int, c: int, dirs: seq<Coord>, color: Color, t: Coord)
    requires InBounds(r, c) && forall d :: d in dirs <==> Diagonal(d)
    ensures t in SlidingMoves(cells, Rays(r, c, dirs), color) <==>
            exists d :: Diagonal(d) && ClearLine(cells, r, c, d, color, t)
  {
    SlidingReach(cells, r, c, dirs, color, t);
  }

  /** `t` is at the end of a clear line from (r, c) along a row or a column. */
  ghost predicate OrthogonalReach(cells: Cells, r: int, c: int, color: Color, t: Coord) {
    exists d :: Orthogonal(d) && ClearLine(cells, r, c, d, color, t)
  }

  /** `t` is at the end of a clear diagonal line from (r, c). */
  ghost predicate DiagonalReach(cells: Cells, r: int, c: int, color: Color, t: Coord) {
    exists d :: Diagonal(d) && ClearLine(cells, r, c, d, color, t)
  }

  /** A rook reaches exactly the squares at the end of a clear line along its row or column. */
  lemma RookReach(cells: Cells, r: int, c: int, color: Color, t: Coord)
    requires InBounds(r, c)
    ensures t in SlidingMoves(cells, RookRays(r, c), color) <==> OrthogonalReach(cells, r, c, color, t)
  {
    RookDirectionsExact();
    OrthogonalRays(cells, r, c, RookDirections, color, t);
  }

  /** A bishop reaches exactly the squares at the end of a clear diagonal line. */
  lemma BishopReach(cells: Cells, r: int, c: int, color: Color, t: Coord)
    requires InBounds(r, c)
    ensures t in SlidingMoves(cells, BishopRays(r, c), color) <==> DiagonalReach(cells, r, c, color, t)
  {
    BishopDirectionsExact();
    DiagonalRays(cells, r, c, BishopDirections, color, t);
  }

  lemma KingStepsAll(cells: Cells, r: int, c: int, color: Color)
    ensures forall u :: u in KingMoves(cells, r, c, color) <==>
              InBounds(u.row, u.col) && KingStep(u.row - r, u.col - c) && !HasColor(cells, u.row, u.col, color)
  {
    forall u ensures u in KingMoves(cells, r, c, color) <==>
                     InBounds(u.row, u.col) && KingStep(u.row - r, u.col - c) && !HasColor(cells, u.row, u.col, color) {
      KingStepsExact(cells, r, c, color, u);
    }
  }

  /** The end of a clear line is a square of the board other than the start. */
  lemma ClearLineTarget(cells: Cells, r: int, c: int, d: Coord, color: Color, t: Coord)
    requires IsDirection(d) && ClearLine(cells, r, c, d, color, t)
    ensures InBounds(t.row, t.col) && t != Coord(r, c)
  {
    var n :| 1 <= n < 8 && t == Step(r, c, d, n) && InBounds(t.row, t.col);
  }

  // ---------------------------------------------------------------- flags are not read

  // The generators read only the pieces of the grid, never the en-passant flags.

  lemma {:induction false} SlideAlongSame(a: Cells, b: Cells, ray: seq<Coord>, color: Color)
    requires AllInBounds(ray) && SamePieces(a, b)
    ensures SlideAlong(a, ray, color) == SlideAlong(b, ray, color)
    decreases |ray|
  {
    if ray != [] {
      assert PieceAt(a, ray[0].row, ray[0].col) == PieceAt(b, ray[0].row, ray[0].col);
      SlideAlongSame(a, b, ray[1..], color);
    }
  }

  lemma {:induction false} SlidingMovesFromSame(a: Cells, b: Cells, rays: seq<seq<Coord>>, color: Color, k: nat)
    requires (forall ray <- rays :: AllInBounds(ray)) && k <= |rays| && SamePieces(a, b)
    ensures SlidingMovesFrom(a, rays, color, k) == SlidingMovesFrom(b, rays, color, k)
    decreases |rays| - k
  {
    if k < |rays| {
      SlideAlongSame(a, b, rays[k], color);
      SlidingMovesFromSame(a, b, rays, color, k + 1);
    }
  }

  lemma {:induction false} NotOwnSame(a: Cells, b: Cells, targets: seq<Coord>, color: Color)
    requires AllInBounds(targets) && SamePieces(a, b)
    ensures NotOwn(a, targets, color) == NotOwn(b, targets, color)
    decreases |targets|
  {
    if targets != [] {
      assert PieceAt(a, targets[0].row, targets[0].col) == PieceAt(b, targets[0].row, targets[0].col);
      NotOwnSame(a, b, targets[1..], color);
    }
  }
}
