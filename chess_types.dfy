/**
  Values shared by both chess engines: colours, piece kinds, pieces, tiles and the
  8x8 grid.  A JavaScript `Tile` object is a value in a 64-element sequence indexed by
  row * 8 + col; a `Piece` object is a value whose `id` stands for its object identity
  and whose `row`/`col` stand for its `tile` back-reference.
 */
module ChessTypes {

  datatype Option<T> = None | Some(value: T)

  datatype Color = White | Black

  datatype Kind = Pawn | Knight | Bishop | Rook | Queen | King

  /** A piece object: colour, kind, the `firstMove` flag and the tile it believes it stands on. */
  datatype Piece = Piece(id: nat, color: Color, kind: Kind, firstMove: bool, row: int, col: int)

  /** A tile object: its occupant and the en-passant flag. */
  datatype Tile = Tile(piece: Option<Piece>, enPassant: bool)

  datatype Coord = Coord(row: int, col: int)

  /** A move request `{piece, startRow, startCol, endRow, endCol}`; `mover` is the id of
      `piece` when the request carries one (AI moves do, user clicks do not). */
  datatype MoveReq = MoveReq(mover: Option<nat>, startRow: int, startCol: int, endRow: int, endCol: int)

  const EmptyTile := Tile(None, false)

  type Cells = s: seq<Tile> | |s| == 64 witness seq(64, _ => EmptyTile)

  /** What a board object holds besides its fixed tiles: the tiles' contents and `lastMove`. */
  datatype Position = Position(cells: Cells, lastMove: Option<MoveReq>)

  function Opponent(c: Color): (o: Color)
    ensures o != c
  {
    if c == White then Black else White
  }

  /** Pawns of `c` advance by this many rows (white towards row 0). */
  function Direction(c: Color): (d: int)
    ensures d == 1 || d == -1
    ensures d == -1 <==> c == White
  {
    if c == White then -1 else 1
  }

  function Abs(x: int): nat {
    if x < 0 then -x else x
  }

  predicate InBounds(r: int, c: int) {
    0 <= r <= 7 && 0 <= c <= 7
  }

  function Idx(r: int, c: int): (i: nat)
    requires InBounds(r, c)
    ensures i < 64
  {
    r * 8 + c
  }

  lemma IdxInjective(r: int, c: int, r': int, c': int)
    requires InBounds(r, c) && InBounds(r', c')
    ensures Idx(r, c) == Idx(r', c') <==> r == r' && c == c'
  {
  }

  /** The row and column come back out of a flat index. */
  lemma IdxRowCol()
    ensures forall r, c :: InBounds(r, c) ==> Idx(r, c) / 8 == r && Idx(r, c) % 8 == c
  {
    forall r, c | InBounds(r, c)
      ensures Idx(r, c) / 8 == r && Idx(r, c) % 8 == c
    {
      assert Idx(r, c) == r * 8 + c;
    }
  }

  function TileAt(cells: Cells, r: int, c: int): Tile
    requires InBounds(r, c)
  {
    cells[Idx(r, c)]
  }

  function PieceAt(cells: Cells, r: int, c: int): Option<Piece>
    requires InBounds(r, c)
  {
    cells[Idx(r, c)].piece
  }

  predicate FlagAt(cells: Cells, r: int, c: int)
    requires InBounds(r, c)
  {
    cells[Idx(r, c)].enPassant
  }

  /** `getTile(row, col)`: no tile off the board, otherwise the tile at (row, col). */
  function GetTile(cells: Cells, r: int, c: int): (t: Option<Tile>)
    ensures t.None? <==> (r < 0 || r > 7 || c < 0 || c > 7)
    ensures t.Some? ==> InBounds(r, c) && t.value == TileAt(cells, r, c)
  {
    if r < 0 || r > 7 || c < 0 || c > 7 then None else Some(cells[r * 8 + c])
  }

  /** The occupant of (r, c) has colour `color`. */
  predicate HasColor(cells: Cells, r: int, c: int, color: Color)
    requires InBounds(r, c)
  {
    PieceAt(cells, r, c).Some? && PieceAt(cells, r, c).value.color == color
  }

  /** The piece of a tile agrees with the tile: its `tile` reference is this tile. */
  predicate Agrees(t: Tile, r: int, c: int) {
    t.piece.Some? ==> t.piece.value.row == r && t.piece.value.col == c
  }

  /** Grid occupancy and every piece's `tile` reference agree. */
  ghost predicate Valid(cells: Cells) {
    forall r, c :: InBounds(r, c) ==> Agrees(cells[Idx(r, c)], r, c)
  }

  /** The two grids have the same occupant on every tile. */
  ghost predicate SamePieces(a: Cells, b: Cells) {
    forall r, c :: InBounds(r, c) ==> a[Idx(r, c)].piece == b[Idx(r, c)].piece
  }

  ghost predicate NoFlags(cells: Cells) {
    forall r, c :: InBounds(r, c) ==> !cells[Idx(r, c)].enPassant
  }

  /** The tiles other than (r, c) are flag-free, i.e. at most (r, c) is flagged. */
  ghost predicate OnlyFlag(cells: Cells, r: int, c: int) {
    forall r', c' :: InBounds(r', c') && !(r' == r && c' == c) ==> !cells[Idx(r', c')].enPassant
  }

  /** `grid.flat().find(t => t.enPassant)?.enPassant || false` */
  predicate AnyFlag(cells: Cells) {
    exists k :: 0 <= k < 64 && cells[k].enPassant
  }

  /** Replace the occupant of one tile. */
  function SetPiece(cells: Cells, r: int, c: int, p: Option<Piece>): (res: Cells)
    requires InBounds(r, c)
    ensures PieceAt(res, r, c) == p
    ensures forall r', c' :: InBounds(r', c') && !(r' == r && c' == c) ==>
              res[Idx(r', c')] == cells[Idx(r', c')]
    ensures forall k :: 0 <= k < 64 ==> res[k].enPassant == cells[k].enPassant
  {
    cells[Idx(r, c) := Tile(p, cells[Idx(r, c)].enPassant)]
  }

  /** Set the en-passant flag of one tile. */
  function SetFlag(cells: Cells, r: int, c: int): (res: Cells)
    requires InBounds(r, c)
    ensures FlagAt(res, r, c)
    ensures forall r', c' :: InBounds(r', c') && !(r' == r && c' == c) ==>
              res[Idx(r', c')] == cells[Idx(r', c')]
    ensures forall k :: 0 <= k < 64 ==> res[k].piece == cells[k].piece
  {
    cells[Idx(r, c) := Tile(cells[Idx(r, c)].piece, true)]
  }

  /** `grid.flat().forEach(t => t.enPassant = false)` */
  function ClearFlags(cells: Cells): (res: Cells)
    ensures NoFlags(res)
    ensures forall k :: 0 <= k < 64 ==> res[k].piece == cells[k].piece
  {
    seq(64, k requires 0 <= k < 64 => Tile(cells[k].piece, false))
  }
}
