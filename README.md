# Chess engines and snake game, modelled in Dafny

This project models the playing logic of three browser programs from one web site:

- **The main chess engine** (`Projectpage/chess/chess.js`):
  - an 8×8 board of tiles, each with an occupant and an en-passant flag;
  - pieces that know their colour, their tile and whether they have moved;
  - move generation from tables precomputed per square (`ValidMoves`);
  - `movePiece`/`unmakeMove` with castling and en passant;
  - check, checkmate and stalemate;
  - a computer player (`AI`) that scores material plus piece-square tables and searches with minimax and alpha-beta cut-offs.
- **The simplified chess engine** (`docs/chess/chess.js`):
  - pieces that generate their moves by walking in directions;
  - a board whose `movePiece` handles en passant and castling;
  - an AI that tries every Black move once, scores it by material, and undoes it by hand.
- **The snake game** (`docs/snake/script.js`):
  - a head, a body and food on a 25×25 grid of 25-pixel tiles;
  - steering that never reverses onto itself;
  - eating, growing and collisions;
  - the score and the high score.

## How the model is built

- **Board.** The board is a flat sequence of 64 `Tile` values indexed `row * 8 + col`.
  - A piece is a `Piece` value. Its `id` stands for object identity.
  - The piece's `row`/`col` stand for its `tile` reference.
  - `Valid` says every piece's coordinates agree with the square that holds it.
- **Classes.** The state the JavaScript mutates lives in Dafny classes:
  - `BoardObject.Board` and `DocsBoard.Board` hold `cells` and `lastMove`;
  - `MoveTables.ValidMoves` holds the four precomputed tables as nested sequences, filled once by its constructor;
  - `Snake.Game` holds the script's global variables.
  - Each method is proved equal to a specification function on values, such as `ChessBoard.MakeMove`, `BoardStatus.Checkmate` or `ChessAI.MinimaxOf`.
  - The properties are proved as lemmas about those functions.
- **Errors.** Where the JavaScript would throw a `TypeError`, the model yields `Crashed`: `getKing` finding nothing, or reading `.piece` of a tile that does not exist.
- **Infinity.** `±Infinity` in the search is the `Score` datatype `NegInf | Fin(n) | PosInf`.

Where the code and its design description differ, the model follows the code:

- `getBestMove` of the main engine keeps the first strictly best move. There is no random tie-break.
- `movePiece` never promotes a pawn. Promotion happens in the user-interface click handler, which is not modelled.
- `unmakeMove` of the main engine clears every en-passant flag and does not restore the flag or `lastMove`. The search therefore runs on positions whose flags differ from the start. `ChessBoard.RoundTrip` states exactly what is restored.
- In the simplified engine, a pawn offers en passant when the tile beside it is flagged. `movePiece` flags the square that was passed over. The model keeps both as written.

## Model

| member | source | states |
|---|---|---|
| ChessTypes.GetTile | Projectpage/chess/chess.js:20-23 | `getTile` gives no tile exactly when a coordinate is outside 0..7; otherwise it gives the tile at that row and column |
| ChessTypes.Opponent | Projectpage/chess/chess.js:145 | the opposite colour is never the colour itself |
| ChessTypes.Direction | Projectpage/chess/chess.js:237 | the pawn direction is -1 for White and +1 for Black |
| ChessTypes.SetPiece | Projectpage/chess/chess.js:93-94 | setting a tile's piece changes that tile's occupant and nothing else, and leaves all flags as they were |
| ChessTypes.SetFlag | Projectpage/chess/chess.js:102-105 | raising a flag touches only that tile and no occupant |
| ChessTypes.ClearFlags | Projectpage/chess/chess.js:137-141 | the sweep leaves no flag raised and keeps every occupant |
| ChessTypes.IdxInjective | Projectpage/chess/chess.js:15 | two in-bounds squares share a board slot only when they are the same square |
| MoveTables.KnightOffsetsExact | Projectpage/chess/chess.js:387-390 | the eight knight offsets are exactly the (±1,±2)/(±2,±1) jumps |
| MoveTables.KingOffsetsExact | Projectpage/chess/chess.js:403-407 | the eight king offsets are exactly the non-zero steps of at most one in each axis |
| MoveTables.JumpTargetsMembers | Projectpage/chess/chess.js:391-397 | a square is a precomputed jump target iff it is on the board and the offset to it is in the table |
| MoveTables.KnightTargetsExact | Projectpage/chess/chess.js:385-399 | the precomputed knight squares are exactly the on-board knight jumps from the square |
| MoveTables.KingTargetsExact | Projectpage/chess/chess.js:401-416 | the precomputed king squares are exactly the on-board king steps from the square |
| MoveTables.ComputeJumpMoves | Projectpage/chess/chess.js:391-398 | the loop returns exactly the in-bounds targets of the offsets, in table order |
| MoveTables.ComputeKnightMoves | Projectpage/chess/chess.js:385-399 | `computeKnightMoves` returns the knight target list |
| MoveTables.ComputeKingMoves | Projectpage/chess/chess.js:401-416 | `computeKingMoves` returns the king target list |
| MoveTables.RayShape | Projectpage/chess/chess.js:423-431 | the k-th square of a ray is k+1 steps out, and every in-bounds step of a ray is in it |
| MoveTables.ComputeRay | Projectpage/chess/chess.js:422-431 | the inner `for` loop collects the squares of one direction until the first step off the board |
| MoveTables.ComputeSlidingMoves | Projectpage/chess/chess.js:418-434 | one ray per direction, in direction order |
| MoveTables.ComputeRookRays | Projectpage/chess/chess.js:372-379 | the rook table entry is the four orthogonal rays |
| MoveTables.ComputeBishopRays | Projectpage/chess/chess.js:373-380 | the bishop table entry is the four diagonal rays |
| MoveTables.RookDirectionsExact | Projectpage/chess/chess.js:372 | the rook directions are exactly the four orthogonal unit vectors |
| MoveTables.BishopDirectionsExact | Projectpage/chess/chess.js:373 | the bishop directions are exactly the four diagonal unit vectors |
| MoveTables.ValidMoves.constructor | Projectpage/chess/chess.js:361-383 | after `precompute`, every square's four table entries equal the knight, king, rook and bishop specifications |
| MoveTables.PrecomputeRow | Projectpage/chess/chess.js:375-382 | one pass of the outer loop fills a row of every table correctly |
| MoveTables.PrecomputeEntry | Projectpage/chess/chess.js:377-380 | the entry computed for one square agrees with the specifications |
| MoveTables.ValidMoves.Entry | Projectpage/chess/chess.js:366-383 | reading any square of the filled tables gives the specified targets and rays |
| MoveTables.ValidMoves.GetKnightMoves | Projectpage/chess/chess.js:456-461 | the knight's moves are its table targets not held by its own colour |
| MoveTables.ValidMoves.GetKingMoves | Projectpage/chess/chess.js:463-468 | the king's steps are its table targets not held by its own colour |
| MoveTables.FirstOccupied | Projectpage/chess/chess.js:442-451 | the index where a slide stops: every earlier square is empty, and the square there, if any, is occupied |
| MoveTables.SlideAlongShape | Projectpage/chess/chess.js:442-451 | a slide yields the empty prefix of the ray plus the blocking square exactly when it holds an enemy |
| MoveTables.SlideRay | Projectpage/chess/chess.js:442-451 | the inner loop of `getSlidingMoves` computes the slide along one ray |
| MoveTables.GetSlidingMoves | Projectpage/chess/chess.js:436-454 | `getSlidingMoves` concatenates the slides along every ray |
| MoveTables.NotOwnMembers | Projectpage/chess/chess.js:457-460 | a target survives the own-colour filter iff its tile is empty or holds the other colour |
| MoveTables.KnightMovesExact | Projectpage/chess/chess.js:456-461 | a knight can move to a square iff it is an on-board knight jump not held by its own colour |
| MoveTables.KingStepsExact | Projectpage/chess/chess.js:463-468 | a king can step to a square iff it is an on-board king step not held by its own colour |
| MoveTables.SlideAlongMembers | Projectpage/chess/chess.js:442-451 | a square is in a slide iff all squares before it on the ray are empty and it is empty or an enemy |
| MoveTables.SlidingMovesMembers | Projectpage/chess/chess.js:436-454 | a square is a sliding move iff some ray reaches it |
| MoveTables.RayReach | Projectpage/chess/chess.js:423-451 | reaching a square along a precomputed ray is the same as a clear line from the piece in that direction |
| MoveTables.SlidingReach | Projectpage/chess/chess.js:418-454 | a sliding move over the precomputed rays is a clear line in one of the directions |
| MoveTables.RookReach | Projectpage/chess/chess.js:301-305 | rook moves are exactly the clear orthogonal lines ending on an empty or enemy square |
| MoveTables.BishopReach | Projectpage/chess/chess.js:313-317 | bishop moves are exactly the clear diagonal lines ending on an empty or enemy square |
| MoveTables.ClearLineTarget | Projectpage/chess/chess.js:423-431 | a clear-line target is on the board and never the piece's own square |
| PieceRules.PawnAttacks | Projectpage/chess/chess.js:285-298 | a pawn attacks exactly the on-board squares one row ahead and one column aside |
| PieceRules.Captures | Projectpage/chess/chess.js:254-262 | a diagonal square is a capture iff it holds an opponent piece |
| PieceRules.PawnPushes | Projectpage/chess/chess.js:239-253 | a push is one empty square ahead, or two ahead from a first move with both squares empty |
| PieceRules.EnPassantTargetExact | Projectpage/chess/chess.js:264-279 | the en-passant target on a side is exactly the square behind the enemy pawn that just made a double step beside it |
| PieceRules.PawnMovesExact | Projectpage/chess/chess.js:235-283 | a pawn's valid moves are exactly its pushes, its captures and its en-passant squares |
| PieceRules.PawnFlagsExact | Projectpage/chess/chess.js:276 | generating pawn moves flags exactly the en-passant squares it offers and moves no piece |
| PieceRules.KingAttack | Projectpage/chess/chess.js:356-358 | a king attacks exactly its on-board neighbours |
| PieceRules.PawnAttack | Projectpage/chess/chess.js:285-298 | a pawn attacks exactly its two forward diagonals |
| PieceRules.KnightAttack | Projectpage/chess/chess.js:307-311 | a knight attacks its on-board jumps not held by its own colour |
| PieceRules.RookAttack | Projectpage/chess/chess.js:301-305 | a rook attacks its clear orthogonal lines |
| PieceRules.BishopAttack | Projectpage/chess/chess.js:313-317 | a bishop attacks its clear diagonal lines |
| PieceRules.QueenAttack | Projectpage/chess/chess.js:319-325 | a queen attacks the union of the rook's and the bishop's lines |
| PieceRules.UnattackedMembers | Projectpage/chess/chess.js:329-330 | the king filter keeps exactly the steps the other side does not attack |
| PieceRules.KingMovesExact | Projectpage/chess/chess.js:328-354 | a king can go to a square iff it is a safe step or a castling square |
| PieceRules.SafeStepsExact | Projectpage/chess/chess.js:329-330 | a safe step is a king step onto an unattacked square |
| PieceRules.CastlingsExact | Projectpage/chess/chess.js:333-352 | castling is offered iff the king has not moved and is not in check, the corner holds a piece that has not moved, the squares between are empty and the two squares tested are not attacked |
| PieceRules.ValidMovesKeepPieces | Projectpage/chess/chess.js:235-358 | move generation never moves a piece, and only a pawn may change flags |
| ChessBoard.SetPieceValid | Projectpage/chess/chess.js:106-109 | placing a piece that knows its square keeps every piece at its own square |
| ChessBoard.MakeMoveValid | Projectpage/chess/chess.js:64-115 | `movePiece` keeps every piece's coordinates in agreement with its square, and its undo record fits |
| ChessBoard.UnmakeValid | Projectpage/chess/chess.js:117-142 | `unmakeMove` keeps that agreement too |
| ChessBoard.UnmakeReadsPieces | Projectpage/chess/chess.js:117-142 | whether an unmake succeeds, and the pieces it leaves, depend only on the pieces on the board |
| ChessBoard.LandPieces | Projectpage/chess/chess.js:76-96 | landing empties the start square, puts the moved piece on the end square and removes a pawn taken en passant |
| ChessBoard.PlainRoundTrip | Projectpage/chess/chess.js:64-142 | for a move that is not castling, unmake after make restores every piece and leaves no flag |
| ChessBoard.CastleRoundTrip | Projectpage/chess/chess.js:84-135 | for castling, unmake restores the king and the rook |
| ChessBoard.RoundTrip | Projectpage/chess/chess.js:64-142 | for every playable move on a valid board, make then unmake succeeds, restores all pieces, clears all flags and leaves `lastMove` set to the move |
| ChessBoard.MakeMoveCrashes | Projectpage/chess/chess.js:64-70 | `movePiece` from an empty or off-board square throws |
| ChessBoard.LandFlags | Projectpage/chess/chess.js:100-105 | after a move only the passed-over square of a pawn's double step is flagged |
| ChessBoard.PlainMoveEffect | Projectpage/chess/chess.js:64-115 | a non-castling move puts the piece on the end square with its first-move flag cleared, empties the start and sets `lastMove` |
| ChessBoard.CastleEffect | Projectpage/chess/chess.js:84-91 | castling moves the king two squares and the corner rook beside it |
| ChessBoard.FindKing | Projectpage/chess/chess.js:25-34 | `getKing` finds a king of that colour when one exists and finds nothing exactly when none does |
| ChessBoard.FindKingFrom | Projectpage/chess/chess.js:26-33 | the scan from a square on finds a king at or after it exactly when one exists |
| ChessBoard.InitialCells | Projectpage/chess/chess.js:36-62 | the starting position is valid, unflagged, and holds the back ranks and pawns on their home squares |
| ChessBoard.InitialHome | Projectpage/chess/chess.js:36-62 | in the starting position every unmoved king stands on column 4 |
| ChessBoard.MakeMoveHome | Projectpage/chess/chess.js:64-115 | moves keep every unmoved king on column 4, since `movePiece` clears the mover's `firstMove` |
| ChessBoard.PromoteHome | Projectpage/chess/chess.js:719-723 | promotion puts a new Queen of the same colour, with `firstMove` set, on the pawn's square, changes no other tile, and keeps the board consistent and every unmoved king on column 4 |
| ChessBoard.HomeCastle | Projectpage/chess/chess.js:84-91 | a castling move starts on column 4 with an unmoved piece other than a king in its corner |
| ChessBoard.GeneratedPlayable | Projectpage/chess/chess.js:235-358 | every move the pieces generate is playable, so the round trip applies to it |
| ChessBoard.KingTargetsPlayable | Projectpage/chess/chess.js:328-354 | every king move is playable |
| ChessBoard.CastlePlayable | Projectpage/chess/chess.js:333-352 | every castling move is playable |
| BoardStatus.GeneratedValid | Projectpage/chess/chess.js:235-358 | generating moves keeps the board valid |
| BoardStatus.CheckmateKeepsPieces | Projectpage/chess/chess.js:167-191 | `isCheckmate` tries moves and undoes them, leaving every piece where it was |
| BoardStatus.TryStep | Projectpage/chess/chess.js:179-185 | one trial of the checkmate loop is a make, a check test and an unmake |
| BoardStatus.TryCrashes | Projectpage/chess/chess.js:180-185 | a trial throws when `movePiece` throws, when the king is gone after the move, or when `unmakeMove` throws |
| BoardStatus.TryUnfold | Projectpage/chess/chess.js:180-185 | after a successful make and unmake, the trial ends the loop with false when the king is safe and otherwise goes on from the restored board |
| BoardStatus.EscapeUnfold | Projectpage/chess/chess.js:175-178 | at a square holding a piece of the side, the checkmate walk continues with that piece's trials on the board its generator left |
| BoardStatus.MovelessUnfold | Projectpage/chess/chess.js:201-206 | at a square holding a piece of the side, the stalemate walk stops when the piece has a move and otherwise goes on from the board its generator left |
| BoardStatus.MovelessMeaning | Projectpage/chess/chess.js:193-210 | the stalemate scan finds no move exactly when no piece of the colour has a valid move, and keeps the pieces |
| BoardStatus.StalemateMeaning | Projectpage/chess/chess.js:193-210 | `isStalemate` throws iff the king is missing; otherwise it holds iff the king is not in check and the side has no valid move |
| BoardStatus.StuckNoEscape | Projectpage/chess/chess.js:173-190 | a side with no valid move has no escape in the checkmate loop |
| BoardStatus.CheckmateMeaning | Projectpage/chess/chess.js:167-191 | `isCheckmate` throws when the king is missing; when it holds the king is in check; a checked side with no moves is mated |
| BoardStatus.MateOrStalemate | Projectpage/chess/chess.js:167-210 | for a side with a king and no valid move, exactly one of checkmate and stalemate holds |
| BoardObject.PawnAttackMoves | Projectpage/chess/chess.js:285-298 | `getAttackMoves` of a pawn returns its attack squares |
| BoardObject.FindKingStep | Projectpage/chess/chess.js:26-33 | one step of the `getKing` scan |
| BoardObject.NoAttackerStep | Projectpage/chess/chess.js:148-163 | one step of the `isCheck` scan keeps "no attacker so far" |
| BoardObject.NoAttackerAll | Projectpage/chess/chess.js:144-165 | a full scan that finds no attacker means the square is not attacked |
| BoardObject.KeepStep | Projectpage/chess/chess.js:330 | one step of the king's filter loop keeps the unattacked prefix |
| BoardObject.Board.constructor | Projectpage/chess/chess.js:14-18 | a new board holds the starting position and no last move |
| BoardObject.Board.SetupPieces | Projectpage/chess/chess.js:36-62 | `setupPieces` puts the home piece on every home square and leaves the rest |
| BoardObject.Board.PlaceRow | Projectpage/chess/chess.js:37-61 | placing one rank writes the home pieces of that rank only |
| BoardObject.Board.GetKing | Projectpage/chess/chess.js:25-34 | the method returns the king the specification finds |
| BoardObject.RowKing | Projectpage/chess/chess.js:27-32 | the inner loop returns the first king of the colour in row i, which is the first from that row on, or reports none and leaves the search to the next row |
| BoardObject.Board.PieceMovesAt | Projectpage/chess/chess.js:301-325 | a non-pawn piece's moves equal their specification |
| BoardObject.Board.AttackMoves | Projectpage/chess/chess.js:150-157 | the attack set of any piece equals its specification |
| BoardObject.Board.KingEntryAt | Projectpage/chess/chess.js:150-151 | for a king `isCheck` reads its raw table entry: its in-bounds neighbours, whatever stands on them |
| MoveTables.ValidMoves.KingEntry | Projectpage/chess/chess.js:150-151 | the king table entry of a square is the list of its in-bounds neighbours |
| BoardObject.Board.IsCheck | Projectpage/chess/chess.js:144-165 | `isCheck` holds iff some opposing piece attacks the square |
| BoardObject.Board.PawnPushMoves | Projectpage/chess/chess.js:239-253 | the pawn's pushes |
| BoardObject.Board.PawnCaptureMoves | Projectpage/chess/chess.js:255-262 | the pawn's captures |
| BoardObject.Board.EnPassantMove | Projectpage/chess/chess.js:269-279 | one side's en-passant square, and the flag it raises |
| BoardObject.Board.GetPawnMoves | Projectpage/chess/chess.js:235-283 | the pawn's moves and flags equal the specification |
| BoardObject.Board.KingStepMoves | Projectpage/chess/chess.js:329-330 | the king's unattacked steps |
| BoardObject.Board.KingsideOpen | Projectpage/chess/chess.js:335-342 | the kingside castling test |
| BoardObject.Board.QueensideOpen | Projectpage/chess/chess.js:344-351 | the queenside castling test |
| BoardObject.Board.CastlingMoves | Projectpage/chess/chess.js:333-352 | the castling squares offered |
| BoardObject.Board.GetKingMoves | Projectpage/chess/chess.js:328-354 | the king's safe steps followed by its castling squares |
| BoardObject.Board.GetValidMoves | Projectpage/chess/chess.js:235-358 | dispatch on the piece kind gives the specified moves and flags |
| BoardObject.Board.MovePiece | Projectpage/chess/chess.js:64-115 | `movePiece` throws or produces the specified position and undo record |
| BoardObject.Board.LandPiece | Projectpage/chess/chess.js:93-105 | the landing step produces the specified position |
| BoardObject.Board.UnmakeMove | Projectpage/chess/chess.js:117-142 | `unmakeMove` succeeds iff the specification does and then leaves its position |
| BoardObject.Board.IsCheckmate | Projectpage/chess/chess.js:167-191 | `isCheckmate` throws or answers as the specification says, with the board left as it says |
| BoardObject.Board.AnyEscape | Projectpage/chess/chess.js:173-190 | the two loops answer false exactly when the specification's walk finds a move that leaves the king safe, true when it finds none, throw only where the walk throws, and leave the board as the walk says |
| BoardObject.Board.RowEscapes | Projectpage/chess/chess.js:174-188 | the loop over one row stops at the first escaping move, or hands the walk on to the next row |
| BoardObject.Board.SquareEscapes | Projectpage/chess/chess.js:175-187 | the checkmate loop body for one square |
| BoardObject.Board.TryMoves | Projectpage/chess/chess.js:178-186 | the inner trial loop over one piece's moves |
| BoardObject.Board.TryTarget | Projectpage/chess/chess.js:179-185 | one trial: a throw is a throw of the specification; true means the king is safe and the board is restored; false means the walk goes on from the restored board |
| BoardObject.Board.TestAndUnmake | Projectpage/chess/chess.js:180-185 | after the trial move: throws where the walk throws (no king, or an undo that fails), answers true exactly when the walk's king is safe, otherwise hands the walk on to the next move from the position the undo restores |
| BoardObject.Board.IsStalemate | Projectpage/chess/chess.js:193-210 | `isStalemate` throws or answers as the specification says |
| BoardObject.Board.AnyPieceMoves | Projectpage/chess/chess.js:199-209 | the two loops find a move exactly when the specification's walk finds a piece with one, and leave the board as it says |
| BoardObject.Board.RowPieceMoves | Projectpage/chess/chess.js:200-208 | the loop over one row stops at the first piece with a move, or hands the walk on to the next row |
| BoardObject.Board.StalemateSquare | Projectpage/chess/chess.js:201-206 | the body for one square agrees with one step of the specification's walk |
| ChessAI.Mirror | Projectpage/chess/chess.js:527-554 | the colour-swapped, rank-flipped board |
| ChessAI.OpposedEvaluate | Projectpage/chess/chess.js:527-554 | two boards that are each other's mirror score to opposite values |
| ChessAI.EvaluateMirror | Projectpage/chess/chess.js:527-554 | mirroring a board negates `evaluateBoard` |
| ChessAI.FacingSquares | Projectpage/chess/chess.js:527-554 | two facing squares holding the same kind in opposite colours, or both empty, score opposite amounts, because Black reads the tables upside down |
| ChessAI.EvaluateInitial | Projectpage/chess/chess.js:527-554 | the starting position scores 0 |
| ChessAI.EvaluateBoard | Projectpage/chess/chess.js:527-554 | the loop sums piece value plus square-table bonus over the board, White positive, with Black's table read from its own side |
| ChessAI.Requests | Projectpage/chess/chess.js:630 | one move request per generated target, carrying the piece |
| ChessAI.AllMovesKeep | Projectpage/chess/chess.js:622-636 | `getAllMoves` finds nothing iff the side has no valid move, and keeps the pieces and `lastMove` |
| ChessAI.RequestsOffered | Projectpage/chess/chess.js:626-632 | a request comes from a square iff it targets one of its piece's valid moves |
| ChessAI.AllMovesMembers | Projectpage/chess/chess.js:622-636 | a request is in `getAllMoves` iff some piece of the colour offers it |
| ChessAI.OfferedPlayable | Projectpage/chess/chess.js:622-636 | every request `getAllMoves` returns is playable |
| ChessAI.GetAllMoves | Projectpage/chess/chess.js:622-636 | the method returns the specified list and position |
| ChessAI.RowMoves | Projectpage/chess/chess.js:625-633 | the outer loop over one row |
| ChessAI.SquareMoves | Projectpage/chess/chess.js:626-632 | the loop body for one square |
| ChessAI.PushRequests | Projectpage/chess/chess.js:629-631 | pushing every target builds the request list |
| ChessAI.Max | Projectpage/chess/chess.js:579-580 | `Math.max` over scores with infinities: one of the two, and below neither |
| ChessAI.Min | Projectpage/chess/chess.js:592-593 | `Math.min` over scores with infinities: one of the two, and above neither |
| ChessAI.MinimaxEnds | Projectpage/chess/chess.js:556-572 | depth 0 gives the evaluation; a side without moves gives -∞/+∞ when mated and 0 otherwise |
| ChessAI.MinimaxMateOrDraw | Projectpage/chess/chess.js:562-572 | at a position without moves, the value is non-zero exactly when the side is checkmated |
| ChessAI.MinimaxKeepsPieces | Projectpage/chess/chess.js:556-600 | minimax undoes every move it tries and leaves every piece where it was |
| ChessAI.SearchStep | Projectpage/chess/chess.js:573-598 | one iteration of the search loop: make, search the child, unmake, fold into the best value and the window |
| ChessAI.MinimaxSearches | Projectpage/chess/chess.js:573-599 | a search with moves runs the loop over `getAllMoves` |
| ChessAI.SearchKeepsPieces | Projectpage/chess/chess.js:573-598 | the search loop keeps the pieces |
| ChessAI.Minimax | Projectpage/chess/chess.js:556-600 | the method computes the specified value and leaves the specified board |
| ChessAI.NoMoveValue | Projectpage/chess/chess.js:562-572 | the no-move branch |
| ChessAI.SearchMoves | Projectpage/chess/chess.js:573-599 | the move loop branch |
| ChessAI.BestOfMeaning | Projectpage/chess/chess.js:604-617 | the best index is the first strictly smallest value; none iff every value is +∞ |
| ChessAI.ScoresStep | Projectpage/chess/chess.js:608-616 | one iteration of `getBestMove`: make, minimax at depth 3 for White, unmake |
| ChessAI.BestMoveMeaning | Projectpage/chess/chess.js:602-620 | the chosen move is one of Black's generated moves with the least score and no earlier move scoring as low |
| ChessAI.BestMoveKeepsPieces | Projectpage/chess/chess.js:602-620 | choosing a move leaves every piece where it was |
| ChessAI.GetBestMove | Projectpage/chess/chess.js:602-620 | the method returns the specified move and board |
| ChessAI.AiTurnPlays | Projectpage/chess/chess.js:642-644 | the AI's turn plays exactly the chosen move and records it as `lastMove` |
| ChessAI.PlayBestMove | Projectpage/chess/chess.js:638-650 | `makeMove` without the timer and redraw |
| DocsDirections.KingDeltasExact | docs/chess/chess.js:93 | the eight directions are exactly the king steps |
| DocsDirections.KnightDeltasExact | docs/chess/chess.js:85 | the knight deltas are exactly the knight jumps |
| DocsDirections.AllDirsAreDirections | docs/chess/chess.js:64-78 | every rook, bishop and queen direction is a unit step |
| DocsRules.Walks | docs/chess/chess.js:124-141 | one walk per direction |
| DocsRules.ConcatMembers | docs/chess/chess.js:124-141 | a square is in the joined walks iff it is in one of them |
| DocsRules.Walk | docs/chess/chess.js:127-139 | the `while` loop of `slideMoves` collects the empty squares and stops after the first enemy or before a friend |
| DocsRules.WalkStep | docs/chess/chess.js:129-137 | one iteration of that loop |
| DocsRules.SlideMoves | docs/chess/chess.js:124-141 | `slideMoves` over all directions |
| DocsRules.SlidesMeaning | docs/chess/chess.js:124-141 | a slide target is a clear line in one of the given directions |
| DocsRules.JumpMoves | docs/chess/chess.js:143-152 | `jumpMoves` |
| DocsRules.JumpsUpToMembers | docs/chess/chess.js:145-150 | the jump loop keeps exactly the on-board deltas not held by the own colour |
| DocsRules.JumpsMeaning | docs/chess/chess.js:143-152 | a jump target is an on-board delta square not held by the own colour |
| DocsRules.GetPawnMoves | docs/chess/chess.js:29-58 | the pawn's moves equal the specification |
| DocsRules.CaptureMoves | docs/chess/chess.js:44-49 | the pawn's diagonal captures |
| DocsRules.PassingMoves | docs/chess/chess.js:51-56 | the pawn's en-passant moves |
| DocsRules.PawnMovesExact | docs/chess/chess.js:29-58 | a pawn move is a push, a two-step from its first move, a capture of an enemy, or a diagonal step beside a flagged tile |
| DocsRules.PawnMovesForward | docs/chess/chess.js:29-58 | every pawn move goes one or two rows forward, at most one column aside, and two only straight from its first move |
| DocsRules.KingAttacks | docs/chess/chess.js:117-120 | the king attacks its on-board neighbours not held by its own colour |
| DocsRules.CastlingExact | docs/chess/chess.js:92-114 | the king's moves are its steps plus a castling square exactly when the king is unmoved and not in check, the corner holds an unmoved rook and the squares between are empty |
| DocsRules.KnightAttacks | docs/chess/chess.js:83-88 | the knight attacks its on-board jumps not held by its own colour |
| DocsBoard.Moved | docs/chess/chess.js:188-228 | a move that succeeds started and ended on the board |
| DocsBoard.MovedCrashes | docs/chess/chess.js:188-228 | `movePiece` throws iff a square it reads is missing |
| DocsBoard.MovedEffect | docs/chess/chess.js:217-220 | the piece lands on the end square with its first-move flag cleared and the start square empties |
| DocsBoard.MovedFlags | docs/chess/chess.js:222-225 | after a move only the passed-over square of a pawn's double step is flagged |
| DocsBoard.MovedEnPassant | docs/chess/chess.js:195-198 | a diagonal pawn move onto a flagged empty tile removes the pawn beside it |
| DocsBoard.MovedCastles | docs/chess/chess.js:201-215 | a king's two-column move also moves the corner rook next to it |
| DocsBoard.MovedValid | docs/chess/chess.js:188-228 | `movePiece` keeps every piece at its own square |
| DocsBoard.LandedValid | docs/chess/chess.js:217-220 | the landing step keeps that agreement |
| DocsBoard.MovesFrom | docs/chess/chess.js:281-283 | one move object per target |
| DocsBoard.AllMovesUpToMembers | docs/chess/chess.js:277-287 | the scan so far holds exactly the moves of the pieces already scanned |
| DocsBoard.AllMovesMembers | docs/chess/chess.js:275-288 | a move is in `getAllMoves` iff a piece of the colour offers it |
| DocsBoard.NoMovesMeaning | docs/chess/chess.js:275-288 | `getAllMoves` is empty iff no piece of the colour has a move |
| DocsBoard.MateMeaning | docs/chess/chess.js:245-254 | checkmate means in check with no move, stalemate means not in check with no move; never both; both throw iff the king is missing |
| DocsBoard.UnthreatenedStep | docs/chess/chess.js:236-242 | one step of the `isCheck` scan |
| DocsBoard.Board.constructor | docs/chess/chess.js:156-160 | a new board holds the starting position and no last move |
| DocsBoard.Board.SetupPieces | docs/chess/chess.js:165-187 | every home square gets its home piece |
| DocsBoard.Board.PlaceBackRank | docs/chess/chess.js:167-174 | one back rank is placed and nothing else changes |
| DocsBoard.Board.PutPiece | docs/chess/chess.js:167 | one piece is placed on its square |
| DocsBoard.Board.PlacePawns | docs/chess/chess.js:175 | one rank of pawns is placed |
| DocsBoard.Board.MovePiece | docs/chess/chess.js:188-228 | `movePiece` succeeds iff the specification does and then leaves its board and `lastMove` |
| DocsBoard.Board.PlaceMover | docs/chess/chess.js:217-227 | the landing and `lastMove` |
| DocsBoard.Board.MoveRook | docs/chess/chess.js:201-215 | the rook jump of castling |
| DocsBoard.Board.ClearAllFlags | docs/chess/chess.js:222-225 | the flag sweep |
| DocsBoard.Board.GetKing | docs/chess/chess.js:230-232 | `getKing` |
| DocsBoard.Board.GetAttackMoves | docs/chess/chess.js:25 | each piece's `getAttackMoves` |
| DocsBoard.Board.GetValidMoves | docs/chess/chess.js:29-114 | each piece's `getValidMoves` |
| DocsBoard.Board.CastleMoves | docs/chess/chess.js:97-112 | the king's castling squares |
| DocsBoard.Board.IsCheck | docs/chess/chess.js:233-244 | `isCheck` holds iff an opposing piece attacks the square |
| DocsBoard.Board.IsCheckmate | docs/chess/chess.js:245-249 | `isCheckmate` |
| DocsBoard.Board.IsStalemate | docs/chess/chess.js:250-254 | `isStalemate` |
| DocsBoard.GetAllMoves | docs/chess/chess.js:275-288 | `getAllMoves` |
| DocsBoard.MovesAt | docs/chess/chess.js:279-285 | the loop body for one square |
| DocsBoard.PushMoves | docs/chess/chess.js:281-283 | pushing move objects for the targets |
| DocsAI.EvaluateBoard | docs/chess/chess.js:262-274 | the loop sums the piece values, White positive |
| DocsAI.MaterialSet | docs/chess/chess.js:262-274 | changing one square's occupant changes the material by the difference of their values |
| DocsAI.MaterialPieces | docs/chess/chess.js:262-274 | the material depends only on the pieces |
| DocsAI.OpposedRowsWorth | docs/chess/chess.js:262-274 | rank-flipped, colour-swapped rows score opposite |
| DocsAI.MaterialInitial | docs/chess/chess.js:262-274 | the starting position scores 0 |
| DocsAI.OpposedLevel | docs/chess/chess.js:262-274 | a board whose every tile is worth the opposite of the facing tile scores 0 |
| DocsAI.HomeFacing | docs/chess/chess.js:165-187 | the home squares of opposite ranks hold the same kinds in opposite colours |
| DocsAI.TrialsFrom | docs/chess/chess.js:292-303 | one value per tried move, and all values finite |
| DocsAI.TrialsStep | docs/chess/chess.js:292-303 | one iteration of the trial loop: move, score, put back by hand |
| DocsAI.LeadingStep | docs/chess/chess.js:302 | a strictly lower value replaces the best move; otherwise it is kept |
| DocsAI.BestMoveMeaning | docs/chess/chess.js:289-305 | the chosen move is one of Black's moves with the least trial value and no earlier move as low; none iff Black has no move |
| DocsAI.GetBestMove | docs/chess/chess.js:289-305 | the method returns the specified move and leaves the specified board |
| DocsAI.TryOnBoard | docs/chess/chess.js:292-301 | one trial on the board object |
| DocsAI.PlayBestMove | docs/chess/chess.js:306-314 | `makeMove` plays the chosen move, without the timer and redraw |
| DocsAI.TrialValuePlain | docs/chess/chess.js:293-295 | a move that is not en passant is scored as the material minus the captured piece |
| DocsAI.TrialPutsBack | docs/chess/chess.js:296-301 | the undo puts the captured piece back and the mover back with its first-move flag cleared |
| DocsAI.TrialDisarmsPawn | docs/chess/chess.js:296-301 | after a trial, a pawn that had not moved loses its double step |
| DocsAI.InitialPawnTrial | docs/chess/chess.js:289-305 | on the starting board a pawn trial succeeds |
| DocsAI.InitialTrialChangesBoard | docs/chess/chess.js:296-301 | on the starting board the trial of Black's a-pawn leaves a different board, and the corrected trial does not |
| DocsAI.CastleTrialStrandsRook | docs/chess/chess.js:291-301 | as written, when the move tried right after a kingside castling trial starts on column 7, the search throws, because that trial left the rook on column 5 |
| DocsAI.TrialLeavesRook | docs/chess/chess.js:201-215 | after a castling trial the rook stays beside the king's home |
| DocsAI.TrialClearsFlags | docs/chess/chess.js:222-225 | after a trial no tile is flagged |
| DocsAI.FixedTrialRestores | docs/chess/chess.js:289-305 | the corrected trial succeeds exactly when the trial does and restores the board exactly |
| DocsAI.FixedTrialsStep | docs/chess/chess.js:292-303 | one step of the corrected trial loop leaves the board as it was |
| DocsAI.FixedTrialsScan | docs/chess/chess.js:292-303 | the corrected loop is a scan over independent trials of the same board |
| DocsAI.ScanMeaning | docs/chess/chess.js:292-303 | the scan succeeds iff every trial does, keeps the board and yields each trial's value |
| DocsAI.ScanChoice | docs/chess/chess.js:291-303 | the scan picks the first strictly least value |
| DocsAI.FixedBestMoveMeaning | docs/chess/chess.js:289-305 | the corrected search leaves the board and `lastMove` untouched and picks the first least-valued move of the original board |
| DocsAI.FixedChoiceMeaning | docs/chess/chess.js:291-303 | for any list of moves, the corrected search leaves the board untouched and picks the first least-valued move |
| DocsAI.ChoiceFromScan | docs/chess/chess.js:291-303 | the choice read off the scan of the trial values is the first strictly least value, with the board untouched |
| Snake.SteerStaysUnit | docs/snake/script.js:47-69 | steering always leaves a unit or zero velocity |
| Snake.SteerNeverReverses | docs/snake/script.js:47-69 | a key that would reverse the last committed direction changes nothing |
| Snake.SteerKeepsHeading | docs/snake/script.js:47-69 | the requested velocity is never the reverse of the committed one |
| Snake.CommitKeepsHeading | docs/snake/script.js:111-112 | committing the velocity keeps it non-reversing |
| Snake.Shift | docs/snake/script.js:97-105 | the body moves up by one: the head's old place first, each segment takes the next one's place |
| Snake.ShiftAfterEating | docs/snake/script.js:89-105 | after eating, the body is the old head position followed by the old body |
| Snake.ShiftOnGrid | docs/snake/script.js:97-105 | the shifted body stays on the tile grid |
| Snake.StepOnGrid | docs/snake/script.js:108-109 | a head step stays on the tile grid |
| Snake.Best | docs/snake/script.js:150-156 | the high score becomes the larger of the old high score and the score |
| Snake.Game.InitGame | docs/snake/script.js:27-41 | the head at tile (5,5), food at the given tile, empty body, zero velocity, score 0, high score from storage |
| Snake.Game.ChangeDirection | docs/snake/script.js:47-69 | a key press steers when the game is running and changes nothing else |
| Snake.Game.Turn | docs/snake/script.js:49-68 | the switch on the key |
| Snake.Game.SetGameOver | docs/snake/script.js:150-156 | the game ends and the high score is raised to the score when it is higher |
| Snake.Game.TriggerCheat | docs/snake/script.js:162-165 | the score becomes 60 and the game ends with the high score raised |
| Snake.Game.Move | docs/snake/script.js:71-113 | a stopped game is unchanged; leaving the field or hitting the body ends it; otherwise the snake eats, grows and steps |
| Snake.Game.Advance | docs/snake/script.js:88-112 | one tick of a running game: grow on food, shift the body, step the head, commit the velocity |
| Snake.Game.Eat | docs/snake/script.js:89-94 | eating appends a segment at the food, places new food and adds one to the score |
| Snake.Game.HitsBody | docs/snake/script.js:81-86 | the collision loop holds iff the head is on a body segment |
| Snake.Game.FollowHead | docs/snake/script.js:97-105 | the backward copy loop shifts the body behind the head |
| Snake.Game.Step | docs/snake/script.js:108-112 | the head moves one tile along the velocity, which becomes the committed one |

## Left out

- Rendering and the DOM are not modelled, in all three programs. This covers `createBoard`, `drawBoard`, `drawPieces`, `getImageName`, `onSquareClick`, `handleClick`, `updateGameState`, the canvas `draw` of the snake, `requestAnimationFrame`, button display and event listeners. They only paint state and forward clicks and keys to the modelled operations.
- After a clicked move to row 0 or 7, the click handler calls `promotePawn`, which replaces the pawn with a new Queen whose `firstMove` is true. The click handler is not modelled; the replacement itself is `ChessBoard.Promote`.
- The timers are not modelled: the `setTimeout` in `AI.makeMove` of the main engine, and the one in `switchPlayer` of the simplified engine that starts `ai.makeMove`. Nor are the redraw and status updates after a move. A turn is modelled as the move itself.
- `console.log` calls and `location.reload` are not modelled.
- `randInt` is not modelled: its results are the `foodCol`/`foodRow` parameters of the snake methods.
- The `localStorage` read becomes the `storedHighscore` parameter. The write in `setGameOver` is not modelled.
- The `Endless_Waves` game and the site's other pages are not part of this model.
- Object aliasing is modelled by values. A piece recorded in an undo record and moved again before the undo would differ in JavaScript. This happens only for a castling king away from column 4, which `KingsHome` excludes. Every position the game reaches satisfies `KingsHome`, promotions included (`ChessBoard.InitialHome`, `ChessBoard.MakeMoveHome`, `ChessBoard.PromoteHome`).
- ChessBoard.HomeCastle: states that the unmoved corner piece is not a king, not that it is a rook. After a promotion on a corner, the new Queen has `firstMove` set, and castling moves it as if it were a rook, because the source tests only `firstMove`.
- BoardStatus.CheckmateMeaning: states that a mate implies check, and that a checked side with no moves is mated. It does not state that every trial move leaves the king attacked, because the positions the loop tries differ from the original. Earlier trials leave en-passant flags behind. Each trial also leaves `lastMove` set to a request with no `piece`, which `unmakeMove` does not restore, so en passant is never offered to a piece tried later.
- DocsAI.GetBestMove: models the search as written, with the imperfect undo described under Findings. `DocsAI.FixedBestMoveMeaning` states the corrected behaviour.

## Findings

| source | as written | input that shows it | evidently intended | confidence | as-written member | corrected member |
|---|---|---|---|---|---|---|
| docs/chess/chess.js:296-301 | `getBestMove` undoes each trial by hand: it puts the mover and the captured piece back. It does not restore the mover's first-move flag, a castling rook, a pawn taken en passant, the en-passant flags or `lastMove`. Worst of all, a kingside castling trial leaves the rook on column 5. The rook's own moves, listed after the king's, then start on an empty tile, so `movePiece` throws and `getBestMove` throws with it (`DocsAI.CastleTrialStrandsRook`). | the starting position, Black's trial of the pawn from (1,0) to (2,0): afterwards that pawn has `firstMove` false and can no longer advance two squares | every trial leaves the board exactly as it found it, so the move chosen is the best on the original board | high; not executed | DocsAI.InitialTrialChangesBoard | DocsAI.FixedBestMoveMeaning |
