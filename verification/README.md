# Chess rules engine — Dafny model

This project models the rules engine of a browser chess game. The engine lives in the lower-case
TypeScript files under `web/src/`. The board is a flat array of 64 squares, numbered 0..63 row by row
from black's back rank (row 0) to white's (row 7). The model covers these parts of it:

- **`Geometry`** (`utils.ts`, and the duplicate `Utils.ts`): index ↔ (row, column) conversion and the
  bounds test, in both the two-argument and the tuple form.
- **`Pieces`**: colours, kinds, the piece record and the move templates. A piece keeps its id, its
  first-move flag and two caches: `legal` (the source's `legalMoves`) and `defended` (`defendedPieces`).
- **`MoveGen`** (`pieces.ts`): move generation for every kind, as a pure function
  `Generate(piece, square, state, territory)`.
  - Pawn, Knight and King scan a template of single steps.
  - Bishop, Rook and Queen walk rays, one direction after another.
- **`Arbiter`** (`arbiter.ts`): `kingAttackingPieces`. It probes two pawn offsets and eight knight
  offsets, then walks eight rays looking for opposing sliders.
- **`Board`** (`board.ts`):
  - the castling table, `getCastleRange` and the initial position;
  - `updateLeglMoves` as `Regenerate`. A main loop over the squares regenerates every non-king piece
    and marks the squares it attacks. Then the two pieces on the cached king squares are regenerated,
    and each king's squares are marked except those both kings attack.
- **`Moves`** (`board.ts`): `movePiece`, `takePiece` and `getLegalMoves`, as pure transitions that
  return a new board and the operation report.
- **`Game`** (`game.ts`): `update`, which covers the move and highlight dispatch and the turn flag.
  `Play` runs `update` over a list of events.
- **`Fixtures`** (`custom-states.ts`): the four fixture positions, built the way the source builds
  them.

Where the source throws a `TypeError`, the model returns a fault value (`Board.Refresh.Broken`,
`Moves.Outcome.Crash`, `Game.Reaction.Halted`) instead of excluding the input. This happens in two
places in regeneration and moves:
- a cached king square is empty when regeneration reads it;
- a King moves two squares to a square the castling table does not list.

`isUnderAttack` on a square outside the board reads the `has` of `undefined` and throws too. The
model's `Board.IsUnderAttack` answers false there instead; the model itself only asks it about
squares 0..63.

The files do not agree with each other, so the model picks one reading of each:

- **Board field.** `pieces.ts` reads `board.currState`, but the board stores `state`. Generation reads
  the state.
- **King lookup.** The King calls `board.getAttackedSquares(adversary)`, which the board does not
  define. The model reads it as territory membership, the test `isUnderAttack` performs.
- **Bounds call.** `pieces.ts` imports `Utils` from `utils.js`, whose `xyWithingBounds(x, y)` takes two
  numbers, but it calls it with one tuple, `xyWithingBounds([x1, y1])` (pieces.ts:75, 141, 197, 265, 337,
  387). Taken literally, that call compares an array and `undefined` with numbers, is always false, and
  no piece would ever generate a move. The model reads the call as the tuple test of `Utils.ts`, which
  the call's shape matches. `arbiter.ts` calls the two-argument form correctly. Both forms are
  modelled and agree (`Geometry.TupleBoundsMeaning`).
- **Undefined `Utils.toSquare`.** `arbiter.ts` calls it, but neither utils file defines it. The model
  reads it as `toIndex`.
- **First-move flag.** `board.ts` calls `isFirstMove` and `setFirstMove`, but only the Pawn declares the
  flag. Every piece carries it, and a move clears it for a Pawn, King or Rook only, as the move code
  does.
- **Move fields.** `Move` is declared with fields `current` and `target` but used as `from` and `to`.
  The model uses `from` and `to`.
- **Sliding walk.** The walk in `pieces.ts` computes every step from the origin, so it never advances
  and never ends on an empty first square. The model advances one square per iteration, the way the
  arbiter's walk recomputes its position.
- **Pawn advances.** These are modelled as written, with two consequences:
  - The forward test `step.x == 1 || (step.x == 2 && firstMove)` never holds for white's templates
    (x = -1, -2), so white pawns only capture (`MoveGen.WhitePawnsOnlyCapture`).
  - Black's two-square advance does not look at the square it passes over
    (`MoveGen.BlackTwoStepIgnoresBlocker`).
- **Capturing a king.** Generation lists the enemy king's square like any other enemy square, so a
  king can be captured. The capturing piece then stands on the captured king's cached square. The
  regeneration finds no king of that colour and keeps the cached square, which now holds the
  capturing piece. So regeneration succeeds (`Board.RegenerateKeepsStaleSlot`), and that piece is
  regenerated as if it were the captured side's king. Its attacked squares are marked as that
  side's king territory (`Board.RegenerateTerritory`). Regeneration fails only later, once a move
  leaves the cached square empty (`Board.RegenerateFreshIffSlotsHeld`). This is modelled as written.
- **Accumulating caches.** `legal` is reset before each generation; `defended` is only ever appended
  to. The model keeps both behaviours (`Board.Regen`). After a regeneration a piece's `defended` list
  is its old list followed by the generated defended squares once per generation it went through:
  once in the main loop for a non-king, and once more for each cached king square it stands on
  (`Board.RegenerateMovesAreFresh`). A King off both cached squares keeps its caches
  (`Board.RegenerateSkipsOtherKings`).

## Model

| member | source | states |
|---|---|---|
| Geometry.IndexRoundTrip | web/src/utils.ts:10-16 | every square 0..63 converts to an in-bounds pair that converts back to the same square |
| Geometry.PairRoundTrip | web/src/utils.ts:10-20 | an in-bounds pair converts to a square in 0..63 that converts back to the same pair |
| Geometry.BoundsMeaning | web/src/utils.ts:18-20 | the two-argument bounds test holds iff both coordinates are in 0..7 |
| Geometry.BoundsByRoundTrip | web/src/utils.ts:10-20 | a pair is in bounds iff its index is in 0..63 and converts back to the same pair |
| Geometry.IndexRangeMissesWrap | web/src/utils.ts:14-20 | out-of-bounds pairs such as (0, 8) and (r+1, -2) still land on a square in 0..63 (the wrong one), so an index-range test cannot replace the pair test |
| Geometry.TupleBoundsMeaning | web/src/Utils.ts:14-17 | the tuple bounds test holds iff both coordinates are in 0..7, the same as the two-argument form |
| Geometry.TupleRoundTrip | web/src/Utils.ts:8-17 | an in-bounds tuple converts to a square in 0..63 that converts back to the same tuple |
| Geometry.SquareTupleRoundTrip | web/src/Utils.ts:8-13 | every square 0..63 gives an in-bounds tuple that converts back to the same square |
| Geometry.NegativeSquareBreaksRoundTrip | web/src/utils.ts:10-16 | with the source's floor and truncating `%`, square -1 converts to (-1, -1), whose index is -9, so the round trip needs 0 <= s |
| Geometry.JsRem8 | web/src/utils.ts:11 | the JavaScript remainder by 8: it takes the dividend's sign and differs from it by a multiple of 8 |
| Pieces.SlidingTemplates | web/src/pieces.ts:162-171 | every Bishop, Rook and Queen template step is a unit direction, and the Queen's list is the Bishop's followed by the Rook's |
| Pieces.At | web/src/custom-states.ts:22-34 | a lookup past the end of a short array reads as empty, and any lookup inside it reads that square |
| MoveGen.Target | web/src/pieces.ts:74-76 | a template step gives a square iff the shifted pair is in bounds, and the square's pair is that shifted pair |
| MoveGen.Scan | web/src/pieces.ts:70-95 | single-step generation: every square is on the board, no legal square holds a friend, every defended square does, and a King lists no square the adversary holds |
| MoveGen.ScanMembership | web/src/pieces.ts:72-94 | a square comes out of the template scan as legal (defended) iff some template step reaches it with a Legal (Defends) verdict |
| MoveGen.Ray | web/src/pieces.ts:191-219 | one ray walk: squares on the board, legal squares hold no friend, at most one defended square, which holds a friend |
| MoveGen.RayLegalMembership | web/src/pieces.ts:195-218 | a square is a legal ray move iff it lies on the geometric ray, every nearer ray square is empty, and no friend stands on it |
| MoveGen.RayDefendedMembership | web/src/pieces.ts:200-209 | a square is defended along a ray iff it lies on the ray, every nearer ray square is empty, and a friend stands on it |
| MoveGen.RaySquares | web/src/pieces.ts:195-217 | the geometric ray is on the board and every step along it brings the edge strictly closer, so the walk terminates |
| MoveGen.SlideAppend | web/src/pieces.ts:221-226 | walking two direction lists in turn gives the same lists as walking their concatenation |
| MoveGen.SlideMembership | web/src/pieces.ts:221-226 | a square comes out of a slide iff it comes out of the walk of one of its directions |
| MoveGen.Generate | web/src/pieces.ts:70-95 | for every kind: squares in 0..63, no legal square holds a friend, every defended square holds one, and a King lists no square the adversary holds |
| MoveGen.KnightMoves | web/src/pieces.ts:332-347 | a Knight's square is legal iff a knight offset reaches it and it is empty or enemy-held; defended iff an offset reaches it and a friend holds it |
| MoveGen.PawnMoves | web/src/pieces.ts:70-95 | a Pawn's square is legal iff one of its four templates reaches it and that template's test passes; defended iff a diagonal template reaches a friend |
| MoveGen.PawnDiagonal | web/src/pieces.ts:78-85 | a diagonal square is legal iff an enemy holds it and defended iff a friend holds it; an empty diagonal gives nothing |
| MoveGen.PawnForward | web/src/pieces.ts:86-92 | a forward square is legal iff it is empty and the step is one square, or two squares on the first move; it is never defended |
| MoveGen.WhitePawnsOnlyCapture | web/src/pieces.ts:49-62 | as written, every legal move of a white pawn lands on an enemy piece |
| MoveGen.BlackTwoStepIgnoresBlocker | web/src/pieces.ts:86-92 | as written, a black pawn on its first move may advance two squares whenever the destination is empty, whatever stands in between |
| MoveGen.KingMoves | web/src/pieces.ts:134-153 | a King's square is legal iff a one-square step reaches it, the adversary does not hold it and no friend stands there; defended alike with a friend there |
| MoveGen.KingStepsAdjacent | web/src/pieces.ts:105-153 | every legal King square is a different square at most one row and one column away (index difference 1, 7, 8 or 9, never 2), the adversary does not hold it, and no friend stands on it |
| MoveGen.SliderMoves | web/src/pieces.ts:221-226 | a slider's square is legal (defended) iff it is a ray move (ray guard) along one of the kind's directions |
| MoveGen.QueenIsBishopThenRook | web/src/pieces.ts:162-171 | a Queen generates exactly a Bishop's lists followed by a Rook's lists from the same square |
| MoveGen.GenerationReadsOnlyColors | web/src/pieces.ts:70-95 | generation depends only on the piece's kind, colour and first-move flag and on the colours on the board; only a King's result depends on the territory |
| Arbiter.PawnChecks | web/src/arbiter.ts:7-16 | the pawn offsets probed for a king: two of them, one row toward white for a black king and toward black for a white king, on two different columns |
| Arbiter.ScanTables | web/src/arbiter.ts:37-56 | the scan uses 2 pawn offsets, 8 knight offsets and 8 distinct unit ray directions |
| Arbiter.Probe | web/src/arbiter.ts:76-91 | one probe reports its target iff the target is on the board and holds an opposing Pawn or Knight |
| Arbiter.ProbesMembership | web/src/arbiter.ts:127-129 | the probe loop reports a square iff some offset reaches it and an opposing Pawn or Knight stands there |
| Arbiter.Walk | web/src/arbiter.ts:93-121 | one ray walk reports only on-board squares holding an opposing Rook, Bishop or Queen |
| Arbiter.WalkMembership | web/src/arbiter.ts:96-120 | a walk reports a square iff it is on the ray, holds an opposing slider, and every nearer ray square is empty or holds an opposing slider |
| Arbiter.WalksMembership | web/src/arbiter.ts:130-132 | the ray loop reports a square iff one of its directions' walks does |
| Arbiter.KingAttackingPieces | web/src/arbiter.ts:123-134 | every reported square is on the board and holds a piece of the colour opposite to the king's |
| Arbiter.KingAttackers | web/src/arbiter.ts:123-134 | the full scan reports a square iff a pawn or knight offset reaches an opposing Pawn or Knight there, or one of the eight rays sees an opposing slider there |
| Board.CastleTableShape | web/src/board.ts:43-88 | every castling entry lies on its colour's back rank, the king starts on file 4, the rook in its corner, the king moves two squares toward it, and the rook lands on the square the king crosses |
| Board.CastleRookMove | web/src/board.ts:230-275 | the rook move for a king destination exists iff some table entry has that destination, and then it is that entry's rook move |
| Board.GetCastleRange | web/src/board.ts:303-318 | the range is a pair (a, b) with a < b on the colour's back rank, made of that side's king and rook squares |
| Board.InitialStateFacts | web/src/board.ts:109-139 | the initial state has 64 squares, 16..47 empty, ids equal to squares, black on 0..15, pawns on rows 1 and 6, fresh pieces, and kings exactly on 4 and 60 |
| Board.InitialBoard | web/src/board.ts:96-107 | the constructed board is well formed, holds the initial pieces, has no snapshots and caches the kings on 4 and 60 |
| Board.Construct | web/src/board.ts:96-107 | loading a position with one king per colour on the cached squares gives a well-formed board with those pieces and kings |
| Board.Mark | web/src/board.ts:162-165 | marking a list of squares adds the colour exactly on those squares and changes nothing else |
| Board.KingTerritory | web/src/board.ts:176-195 | a king adds its colour exactly on the squares in its own attacked list that are not in the other king's list |
| Board.IsUnderAttack | web/src/board.ts:141-143 | a square counts as attacked by a colour only when it is inside the territory and its set holds that colour; a square outside answers false where the source throws (see "## Left out") |
| Board.KingHonoursUnderAttack | web/src/pieces.ts:134-150 | a King lists a square (legal or defended) iff it is one king step away and `isUnderAttack` (board.ts:141-143) does not hold for it against the King's adversary |
| Board.Regen | web/src/board.ts:161 | regenerating a piece keeps its identity, replaces `legal` with exactly the generated legal squares (none holding a friend), and appends exactly the generated defended squares to the old `defended` list |
| Board.SweepStep | web/src/board.ts:151-168 | one loop iteration updates the cached king square of the King it meets and leaves the other slot alone |
| Board.Regenerate | web/src/board.ts:145-196 | a successful regeneration is well formed, keeps every piece on its square, keeps the snapshots, and both cached king squares hold pieces |
| Board.SweptTerritory | web/src/board.ts:151-168 | after the main loop a colour marks a square iff a non-king piece of that colour lists it among its attacked squares |
| Board.SweptKings | web/src/board.ts:154-159 | after the main loop each cached square holds the last king of its colour on the board, or its old value when there is none |
| Board.RegenerateKings | web/src/board.ts:151-174 | after a regeneration each cached king square holds the last king of its colour, or is unchanged when that colour has no king |
| Board.RegenerateSucceeds | web/src/board.ts:170-174 | with a king of each colour on the board, regeneration does not fail |
| Board.RegenerateFailsWithoutKing | web/src/board.ts:170-173 | with no white king and an empty cached white square, regeneration fails at that square |
| Board.RegenerateFreshIffSlotsHeld | web/src/board.ts:151-174 | regeneration succeeds iff both cached king squares, as the main loop leaves them, hold a piece, of whatever kind or colour |
| Board.RegenerateKeepsStaleSlot | web/src/board.ts:151-174 | with no black king left (captured) and a piece on black's cached square, regeneration succeeds and keeps that cached square |
| Board.RegenerateTerritory | web/src/board.ts:145-196 | after a regeneration a square is under attack by a colour iff one of its non-king pieces attacked it in the loop, or its king attacks it and the other king does not |
| Board.RegenerateMovesAreFresh | web/src/board.ts:151-174 | after a regeneration, every non-king and both cached-square pieces list exactly the moves generation gives on the new board against the loop's territory, and their `defended` list is the old one followed by that generation's defended squares once per generation the piece went through (loop, white slot, black slot) |
| Board.RegenerateSkipsOtherKings | web/src/board.ts:151-158 | a King off both cached king squares is not regenerated: its square, caches included, is unchanged |
| Board.KingAvoidsAttackedSquares | web/src/pieces.ts:136-150 | a king on its cached square lists no square that an opposing non-king piece attacked in the loop |
| Moves.TakePiece | web/src/board.ts:286-288 | taking empties `to` and changes no other square |
| Moves.FirstMoveDone | web/src/board.ts:225-229 | moving clears the first-move flag of a Pawn, King or Rook and leaves every other field as it was |
| Moves.MovePiece | web/src/board.ts:198-284 | a move is refused (board unchanged, `success` false) iff `from` is empty, the mover is not on turn, or `to` is not among its legal moves; otherwise it succeeds with one snapshot appended, or fails as the source does |
| Moves.SucceededShape | web/src/board.ts:211-279 | a successful move passed the gate and its board holds the pieces the move places, with the operation it reports |
| Moves.MoveRelocatesMover | web/src/board.ts:224-229 | after a successful move the mover, with its flag cleared if it is a Pawn, King or Rook, stands on `to`, and `from` is empty |
| Moves.MoveOperationKind | web/src/board.ts:219-275 | the operation is CASTLE iff a King moves two squares (carrying the table's rook move), TAKE iff otherwise `to` was occupied, MOVE otherwise, and never EN_PASSANT |
| Moves.CastleWithoutEntryCrashes | web/src/board.ts:230-272 | a two-square King move to a square no table entry lists fails on the missing rook move |
| Moves.CastleMovesRook | web/src/board.ts:271-274 | a castle empties the table's rook square and puts what stood there on the rook's target square |
| Moves.MoveLeavesOthers | web/src/board.ts:211-279 | no square other than `from`, `to` and, for a castle, the two rook squares changes occupant |
| Moves.MoveCount | web/src/board.ts:219-224 | a non-castling move lowers the piece count by one when it takes and keeps it otherwise |
| Moves.Count | web/src/board.ts:219-223 | the piece count is at most the number of squares and is zero iff every square is empty |
| Moves.LegalMovesMatchGate | web/src/board.ts:290-297 | `to` is shown among a square's legal moves (and the piece is on turn) iff the move gate accepts it; an empty square shows nothing |
| Moves.NoCastleAfterRegeneration | web/src/board.ts:230-231 | on a freshly regenerated board a King on its cached square never moves two squares, so the castling branch is unreachable |
| Game.NewGame | web/src/game.ts:14-20 | a new game starts with white to move, on a well-formed initial board with no snapshots |
| Game.Mover | web/src/game.ts:29-33 | the piece a carried-out move moves always has the colour whose turn it is |
| Game.Update | web/src/game.ts:27-42 | a highlight only reads the legal moves; a move onto its own square or a refused move changes nothing; a carried-out move keeps the board's new position and flips the turn, and only then does the turn flip; a board failure halts the game |
| Game.PlayAlternates | web/src/game.ts:29-33 | over any run of events the moved pieces alternate colours starting with the side to move, and the final turn flag flipped once per move |
| Game.NewGameAlternates | web/src/game.ts:19 | from a new game the moves are white, black, white, … by position |
| Game.AlternatesByIndex | web/src/game.ts:31-33 | in an alternating colour sequence entry i has the starting colour for even i and the other for odd i |
| Fixtures.Put | web/src/custom-states.ts:12-17 | a JavaScript index assignment sets that entry, keeps the others, and extends the array by one when the index is just past its end |
| Fixtures.CastlesFacts | web/src/custom-states.ts:5-20 | `Castles` has 64 squares, rooks exactly on the table's rook squares, kings exactly on its king squares, and nothing else |
| Fixtures.PawnsPromotionFacts | web/src/custom-states.ts:22-34 | `PawnsPromotion` has only 63 entries, so square 63 reads as empty; it holds two kings and two pawns |
| Fixtures.KingsQueenKnightFacts | web/src/custom-states.ts:36-62 | `KingsQueenKnight` has 64 squares, one king of each colour on 4 and 60, and pieces exactly on 4, 57, 59 and 60 |
| Fixtures.PinScenarioFacts | web/src/custom-states.ts:64-91 | `PinScenario` has 64 squares, one king of each colour on 4 and 60, and pieces exactly on 2, 3, 4, 53, 57, 59, 60 and 63 |
| Fixtures.FixturesConstructible | web/src/custom-states.ts:5-91 | each 64-square fixture can be loaded with the kings cached on 4 and 60 |

## Left out

- Rendering and input (`display.ts`, `display-driver.ts`), sprites and audio, and the notifier and event wiring. These are DOM, asset and observer code with no rules logic. The pieces' `sprite` field is dropped.
- The display calls in `Game.update` (`applyMove`, `highlightLegalMoves`): the move report is dropped, and the highlighted list is returned in `Game.Reaction` instead of drawn. `Game.run` only draws.
- The static file servers (`main.go`, `server/main.go`) and the bootstraps (`app.ts`, `App.ts`, `Game.ts`).
- The superseded drafts `Pieces.ts`, `Board.ts` and `dist/Pieces.js`, which the lower-case files replace.
- Promotion, en passant, pins, and check or mate detection. The engine does not implement them: `EN_PASSANT` is a declared but unused move type, and pins are a TODO.
- `xToFile`, `yToRank` and `extractXYFromElement`: string formatting and a DOM attribute read.
- `getCurrentState`: it returns the state field, which the model exposes directly.
- `MOVE_CHECKS.ROOK`, `.BISHOP` and `.KING`: they are declared but the scan never reads them.
- Aliasing of snapshots: `prevStates` stores shallow copies that share piece objects with the live board. Later in-place cache updates would show through them. The model stores value copies.
- The source's board contents after a thrown `TypeError`: a fault value discards them.
- Board.IsUnderAttack: for a square outside the territory it answers false, where the source throws a `TypeError`. The engine never calls `isUnderAttack` itself; the King's lookup reads the territory directly.
- Loading `PawnsPromotion` into a board: the model's board type fixes 64 squares, so a 63-entry array cannot be loaded. The source would read square 63 as `undefined` and carry on.
- The literal effect of the one-tuple `xyWithingBounds([x1, y1])` call on the two-argument `utils.ts` test, which would make every generator produce nothing. The model uses the tuple test instead.
- The non-advancing walk of `pieces.ts`, which never terminates on an empty first square. The model advances the walk instead.
