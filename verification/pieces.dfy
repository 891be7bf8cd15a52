/**
 * The piece record and the per-kind move templates of web/src/pieces.ts.
 *
 * The source has one class per kind; here a piece is one record whose `kind` selects
 * the template. Each source object also caches the lists its last generation produced
 * (`legalMoves`, `defendedPieces`); the record keeps them as `legal` and `defended`,
 * because the board's move gate and territory read those caches, not a fresh
 * generation. The rendering-only `sprite` field is dropped.
 */
module Pieces {
  import opened Options

  /** `Color.WHITE = 1`, `Color.BLACK = 2`. */
  datatype Color = White | Black

  datatype Kind = Pawn | Knight | Bishop | Rook | Queen | King

  /**
   * `firstMove` is declared only on Pawn in the source, but the board clears it on
   * Pawn, King and Rook; every record carries it and only those three ever clear it.
   */
  datatype Piece = Piece(kind: Kind, color: Color, id: int, firstMove: bool,
                         legal: seq<int>, defended: seq<int>)

  /** A square's content: `undefined` in the source is `None`. */
  type Cell = Option<Piece>

  /** A relative step: `x` changes the rank (square / 8), `y` the file (square % 8). */
  datatype Step = Step(x: int, y: int)

  /** A requested move. pieces.ts declares `{current, target}`, every user writes `{from, to}`. */
  datatype Move = Move(from: int, to: int)

  /** The other side: the King's `adversary`. */
  function Adversary(c: Color): (a: Color)
    ensures a != c
  {
    if c == Black then White else Black
  }

  /** A freshly constructed piece: first move pending, both caches empty. */
  function NewPiece(kind: Kind, id: int, color: Color): (p: Piece)
  {
    Piece(kind, color, id, true, [], [])
  }

  /**
   * Reading a square of the array. JavaScript yields `undefined` past either end of an
   * array, so a short array (one fixture has 63 entries) reads as empty beyond its end.
   */
  function At(state: seq<Cell>, i: int): (c: Cell)
    ensures c.Some? ==> 0 <= i < |state| && c == state[i]
    ensures 0 <= i < |state| ==> c == state[i]
  {
    if 0 <= i < |state| then state[i] else None
  }

  /** The piece with its caches emptied: what identifies it apart from its last generation. */
  function Strip(c: Cell): (r: Cell)
  {
    match c
    case None => None
    case Some(p) => Some(p.(legal := [], defended := []))
  }

  /** `isLegalMove(target)`: membership in the cached legal moves. */
  predicate IsLegalMove(p: Piece, t: int)
  {
    t in p.legal
  }

  /** `getAttackedSquares()`: the cached legal moves followed by the cached defended squares. */
  function AttackedSquares(p: Piece): (squares: seq<int>)
  {
    p.legal + p.defended
  }

  /** A sliding direction: one square in each coordinate at most, and not standing still. */
  predicate UnitDir(d: Step)
  {
    -1 <= d.x <= 1 && -1 <= d.y <= 1 && (d.x != 0 || d.y != 0)
  }

  /** Pawn templates: two diagonal captures, then the one- and two-square advances. */
  function PawnSteps(c: Color): (steps: seq<Step>)
  {
    if c == White then [Step(-1, -1), Step(-1, 1), Step(-1, 0), Step(-2, 0)]
    else [Step(1, -1), Step(1, 1), Step(1, 0), Step(2, 0)]
  }

  const KingSteps: seq<Step> :=
    [Step(-1, -1), Step(-1, 1), Step(1, -1), Step(1, 1),
     Step(-1, 0), Step(1, 0), Step(0, -1), Step(0, 1)]

  const QueenSteps: seq<Step> :=
    [Step(-1, -1), Step(-1, 1), Step(1, -1), Step(1, 1),
     Step(-1, 0), Step(1, 0), Step(0, -1), Step(0, 1)]

  const BishopSteps: seq<Step> :=
    [Step(-1, -1), Step(-1, 1), Step(1, -1), Step(1, 1)]

  const KnightSteps: seq<Step> :=
    [Step(-1, -2), Step(-1, 2), Step(-2, -1), Step(-2, 1),
     Step(1, -2), Step(1, 2), Step(2, -1), Step(2, 1)]

  const RookSteps: seq<Step> :=
    [Step(-1, 0), Step(1, 0), Step(0, -1), Step(0, 1)]

  /** Every sliding template is made of unit directions; the Queen's is the Bishop's then the Rook's. */
  lemma SlidingTemplates()
    ensures forall i :: 0 <= i < |BishopSteps| ==> UnitDir(BishopSteps[i])
    ensures forall i :: 0 <= i < |RookSteps| ==> UnitDir(RookSteps[i])
    ensures forall i :: 0 <= i < |QueenSteps| ==> UnitDir(QueenSteps[i])
    ensures QueenSteps == BishopSteps + RookSteps
  {
  }
}
