/**
 * The fixture positions of web/src/custom-states.ts, built the way the source builds
 * them: pushes of empty squares, then assignments by index. A JavaScript assignment
 * one past the end of an array extends it, which is how `Castles` reaches 64
 * entries; `PawnsPromotion` never assigns index 63 and stays at 63 entries.
 */
module Fixtures {
  import opened Options
  import opened Pieces
  import opened Board

  /** `state[i] = cell` on a JavaScript array, for an index inside it or just past its end. */
  function Put(state: seq<Cell>, i: int, cell: Cell): (r: seq<Cell>)
    requires 0 <= i <= |state|
    ensures |r| == (if i < |state| then |state| else |state| + 1)
    ensures r[i] == cell
    ensures forall j :: 0 <= j < |state| && j != i ==> r[j] == state[j]
  {
    if i < |state| then state[i := cell] else state + [cell]
  }

  function Empties(n: nat): (r: seq<Cell>)
    ensures |r| == n && forall j :: 0 <= j < n ==> r[j].None?
  {
    seq(n, j => None)
  }

  /** A new piece of the given kind and colour whose id is its square. */
  function P(kind: Kind, sq: int, c: Color): (cell: Cell)
  {
    Some(NewPiece(kind, sq, c))
  }

  function Castles(): (s: seq<Cell>)
  {
    var s := Empties(63);
    var s := Put(s, 0, P(Rook, 0, Black));
    var s := Put(s, 4, P(King, 4, Black));
    var s := Put(s, 7, P(Rook, 7, Black));
    var s := Put(s, 56, P(Rook, 56, White));
    var s := Put(s, 60, P(King, 60, White));
    Put(s, 63, P(Rook, 63, White))
  }

  function PawnsPromotion(): (s: seq<Cell>)
  {
    var s := Empties(63);
    var s := Put(s, 53, P(Pawn, 53, White));
    var s := Put(s, 8, P(Pawn, 8, Black));
    var s := Put(s, 4, P(King, 4, Black));
    Put(s, 60, P(King, 60, White))
  }

  function KingsQueenKnight(): (s: seq<Cell>)
  {
    [None, None, None, None, P(King, 4, Black), None, None, None]
    + Empties(48)
    + [None, P(Knight, 57, White), None, P(Queen, 59, White), P(King, 60, White), None, None, None]
  }

  function PinScenario(): (s: seq<Cell>)
  {
    var s := [None, None, P(Bishop, 2, Black), P(Queen, 3, Black), P(King, 4, Black), None, None, None]
      + Empties(48)
      + [None, P(Knight, 57, White), None, P(Queen, 59, White), P(King, 60, White), None, None, P(Rook, 63, White)];
    Put(s, 53, P(Pawn, 53, White))
  }

  /** What every fixture shares: one king per colour on 4 and 60, ids equal to squares, fresh pieces. */
  predicate WellPlaced(s: seq<Cell>)
  {
    && (forall i :: 0 <= i < |s| ==> (IsKingOf(s[i], Black) <==> i == 4))
    && (forall i :: 0 <= i < |s| ==> (IsKingOf(s[i], White) <==> i == 60))
    && (forall i :: 0 <= i < |s| && s[i].Some? ==>
          s[i].value.id == i && s[i].value.firstMove && s[i].value.legal == [] && s[i].value.defended == [])
  }

  /**
   * `Castles`: 64 squares, rooks exactly on the table's rook squares and kings exactly
   * on its king squares, every other square empty.
   */
  lemma CastlesFacts()
    ensures |Castles()| == 64 && WellPlaced(Castles())
    ensures forall side: CastleSide, c: Color :: Castles()[CastleSquares(side, c).rookFrom] == P(Rook, CastleSquares(side, c).rookFrom, c)
    ensures forall side: CastleSide, c: Color :: IsKingOf(Castles()[CastleSquares(side, c).kingFrom], c)
    ensures forall i :: 0 <= i < 64 ==> (Castles()[i].Some? <==> i in {0, 4, 7, 56, 60, 63})
  {
  }

  /** `PawnsPromotion`: only 63 entries, so square 63 reads as empty; two pawns beside the kings. */
  lemma PawnsPromotionFacts()
    ensures |PawnsPromotion()| == 63 && WellPlaced(PawnsPromotion())
    ensures At(PawnsPromotion(), 63).None?
    ensures forall i :: 0 <= i < 63 ==> (PawnsPromotion()[i].Some? <==> i in {4, 8, 53, 60})
    ensures PawnsPromotion()[53] == P(Pawn, 53, White) && PawnsPromotion()[8] == P(Pawn, 8, Black)
  {
  }

  lemma KingsQueenKnightFacts()
    ensures |KingsQueenKnight()| == 64 && WellPlaced(KingsQueenKnight())
    ensures forall i :: 0 <= i < 64 ==> (KingsQueenKnight()[i].Some? <==> i in {4, 57, 59, 60})
  {
  }

  lemma PinScenarioFacts()
    ensures |PinScenario()| == 64 && WellPlaced(PinScenario())
    ensures forall i :: 0 <= i < 64 ==> (PinScenario()[i].Some? <==> i in {2, 3, 4, 53, 57, 59, 60, 63})
  {
  }

  lemma WellPlacedConstructible(s: seq<Cell>)
    requires |s| == 64 && WellPlaced(s)
    ensures Constructible(s, Kings(4, 60))
  {
  }

  /** Each 64-square fixture can be loaded with the kings cached on 4 and 60 and regenerated. */
  lemma FixturesConstructible()
    ensures Constructible(Castles(), Kings(4, 60))
    ensures Constructible(KingsQueenKnight(), Kings(4, 60))
    ensures Constructible(PinScenario(), Kings(4, 60))
  {
    CastlesFacts();
    KingsQueenKnightFacts();
    PinScenarioFacts();
    WellPlacedConstructible(Castles());
    WellPlacedConstructible(KingsQueenKnight());
    WellPlacedConstructible(PinScenario());
  }
}
