/**
 * The board of web/src/board.ts: the castle table, the initial position and the
 * regeneration pass (`updateLeglMoves`) that refreshes every piece's cached lists,
 * the territory map and the cached king squares. The move protocol is in moves.dfy.
 *
 * The source board is mutated in place; here a board is a value and regeneration
 * returns a new one. A regeneration that would throw in the source (the cached king
 * square is empty, so `wK.generateLegalMoves` is called on `undefined`) returns
 * `Broken` instead.
 */
module Board {
  import opened Options
  import opened Geometry
  import opened Pieces
  import opened MoveGen

  // ----- CASTLE_SQUARES -----

  datatype CastleSide = KingSide | QueenSide

  /** One entry of `CASTLE_SQUARES`: where king and rook stand (`FROM`) and go (`TO`). */
  datatype CastleEntry = CastleEntry(kingFrom: int, rookFrom: int, kingTo: int, rookTo: int)

  function CastleSquares(side: CastleSide, c: Color): (e: CastleEntry)
  {
    match (side, c)
    case (QueenSide, Black) => CastleEntry(4, 0, 2, 3)
    case (QueenSide, White) => CastleEntry(60, 56, 58, 59)
    case (KingSide, Black) => CastleEntry(4, 7, 6, 5)
    case (KingSide, White) => CastleEntry(60, 63, 62, 61)
  }

  /** The back rank of a colour: rank 0 for black, rank 7 for white. */
  function HomeRank(c: Color): (rank: int)
  {
    if c == Black then 0 else 7
  }

  /**
   * The table is a castling table: all four squares lie on the colour's back rank, the
   * rook starts in the corner of its side, the king moves two files toward it, and the
   * rook lands on the square the king crossed.
   */
  lemma CastleTableShape(side: CastleSide, c: Color)
    ensures var e := CastleSquares(side, c);
      && e.kingFrom / 8 == HomeRank(c) && e.rookFrom / 8 == HomeRank(c)
      && e.kingTo / 8 == HomeRank(c) && e.rookTo / 8 == HomeRank(c)
      && e.kingFrom % 8 == 4
      && e.rookFrom % 8 == (if side == KingSide then 7 else 0)
      && e.kingTo == e.kingFrom + (if side == KingSide then 2 else -2)
      && e.rookTo == (e.kingFrom + e.kingTo) / 2
  {
  }

  /**
   * The `switch (move.to)` of a castling King move: the rook move of the entry whose
   * king destination is `to`, or None when no entry has it (the source then reads
   * `.from` of `undefined`).
   */
  function CastleRookMove(to: int): (r: Option<Move>)
    ensures r.Some? <==> exists side: CastleSide, c: Color :: CastleSquares(side, c).kingTo == to
    ensures forall side: CastleSide, c: Color :: CastleSquares(side, c).kingTo == to ==>
      r == Some(Move(CastleSquares(side, c).rookFrom, CastleSquares(side, c).rookTo))
    ensures r.Some? ==> 0 <= r.value.from < 64 && 0 <= r.value.to < 64
  {
    if to == 2 then assert CastleSquares(QueenSide, Black).kingTo == 2; Some(Move(0, 3))
    else if to == 6 then assert CastleSquares(KingSide, Black).kingTo == 6; Some(Move(7, 5))
    else if to == 58 then assert CastleSquares(QueenSide, White).kingTo == 58; Some(Move(56, 59))
    else if to == 62 then assert CastleSquares(KingSide, White).kingTo == 62; Some(Move(63, 61))
    else
      assert forall side: CastleSide, c: Color :: CastleSquares(side, c).kingTo != to;
      None
  }

  /**
   * `getCastleRange(color, side)`: the king's and the rook's starting squares, lower
   * first, so the pair spans the squares between them on the back rank.
   */
  function GetCastleRange(c: Color, side: CastleSide): (r: (int, int))
    ensures r.0 < r.1
    ensures r.0 / 8 == r.1 / 8 == HomeRank(c)
    ensures {r.0, r.1} == {CastleSquares(side, c).kingFrom, CastleSquares(side, c).rookFrom}
  {
    var e := CastleSquares(side, c);
    if side == KingSide then (e.kingFrom, e.rookFrom) else (e.rookFrom, e.kingFrom)
  }

  // ----- the board value -----

  /** `kings`: the cached squares of the black (`b`) and white (`w`) king. */
  datatype Kings = Kings(b: int, w: int)

  function KingSquare(k: Kings, c: Color): (sq: int)
  {
    if c == Black then k.b else k.w
  }

  /** `state`, `prevStates`, `territory` (one set of colours per square) and `kings`. */
  datatype Board = Board(state: seq<Cell>, prevStates: seq<seq<Cell>>,
                         territory: seq<set<Color>>, kings: Kings)

  /** The ways the source throws; each is an outcome here. */
  datatype Fault = NoPieceAtKingSquare(square: int) | NoCastleEntry(to: int)

  /** The result of a regeneration. */
  datatype Refresh = Fresh(board: Board) | Broken(fault: Fault)

  /** Every cached list of every piece holds squares only. */
  predicate CachesInRange(state: seq<Cell>)
  {
    forall i :: 0 <= i < |state| && state[i].Some? ==>
      InRange(state[i].value.legal) && InRange(state[i].value.defended)
  }

  /** What every board the engine builds satisfies. */
  predicate Valid(b: Board)
  {
    && |b.state| == 64 && |b.territory| == 64
    && 0 <= b.kings.b < 64 && 0 <= b.kings.w < 64
    && CachesInRange(b.state)
  }

  /** Two arrays hold the same pieces on the same squares, whatever their cached lists. */
  predicate SamePieces(s1: seq<Cell>, s2: seq<Cell>)
  {
    |s1| == |s2| && forall i :: 0 <= i < |s1| ==> Strip(s1[i]) == Strip(s2[i])
  }

  /**
   * `isUnderAttack(square, adversary)`: the territory of the square holds that colour.
   * A square outside the territory reads as not attacked.
   */
  predicate IsUnderAttack(b: Board, square: int, adversary: Color): (r: bool)
    ensures r ==> 0 <= square < |b.territory|
  {
    0 <= square < |b.territory| && adversary in b.territory[square]
  }

  /**
   * The King's lookup of attacked squares is this test: a King lists a square, as legal
   * or defended, iff the square is one king step away and the adversary does not attack it.
   */
  lemma KingHonoursUnderAttack(b: Board, p: Piece, sq: int, t: int)
    requires p.kind == King && 0 <= sq < 64 && |b.territory| == 64
    ensures var g := Generate(p, sq, b.state, b.territory); var xy := ToXY(sq);
      t in g.legal + g.defended <==>
        (exists i :: 0 <= i < |KingSteps| && Target(xy.0, xy.1, KingSteps[i]) == Some(t))
        && !IsUnderAttack(b, t, Adversary(p.color))
  {
    KingMoves(p, sq, b.state, b.territory, t);
  }

  predicate IsKingOf(cell: Cell, c: Color)
  {
    cell.Some? && cell.value.kind == King && cell.value.color == c
  }

  // ----- initiateBoard -----

  function BackRank(c: Color, base: int): (row: seq<Cell>)
  {
    [Some(NewPiece(Rook, base, c)), Some(NewPiece(Knight, base + 1, c)),
     Some(NewPiece(Bishop, base + 2, c)), Some(NewPiece(Queen, base + 3, c)),
     Some(NewPiece(King, base + 4, c)), Some(NewPiece(Bishop, base + 5, c)),
     Some(NewPiece(Knight, base + 6, c)), Some(NewPiece(Rook, base + 7, c))]
  }

  /** The pushes of `initiateBoard`: black pieces, black pawns, 32 empty squares, white pawns, white pieces. */
  function InitialState(): (s: seq<Cell>)
  {
    BackRank(Black, 0)
    + seq(8, i => Some(NewPiece(Pawn, i + 8, Black)))
    + seq(32, i => None)
    + seq(8, i => Some(NewPiece(Pawn, i + 48, White)))
    + BackRank(White, 56)
  }

  /**
   * The initial position: 64 squares, squares 16..47 empty, black on 0..15 and white
   * on 48..63, every piece's id equal to its square, pawns on ranks 1 and 6, kings on
   * 4 (black) and 60 (white) only, and every piece fresh.
   */
  lemma InitialStateFacts()
    ensures |InitialState()| == 64
    ensures forall i :: 0 <= i < 64 ==> (InitialState()[i].None? <==> 16 <= i < 48)
    ensures forall i :: 0 <= i < 64 && InitialState()[i].Some? ==>
      && InitialState()[i].value.id == i
      && InitialState()[i].value.color == (if i < 16 then Black else White)
      && (InitialState()[i].value.kind == Pawn <==> (8 <= i < 16 || 48 <= i < 56))
      && InitialState()[i].value.firstMove
      && InitialState()[i].value.legal == [] && InitialState()[i].value.defended == []
    ensures forall i :: 0 <= i < 64 ==> (IsKingOf(InitialState()[i], Black) <==> i == 4)
    ensures forall i :: 0 <= i < 64 ==> (IsKingOf(InitialState()[i], White) <==> i == 60)
  {
    var s := InitialState();
    var a := BackRank(Black, 0);
    var bp := seq(8, i => Some(NewPiece(Pawn, i + 8, Black)));
    var e := seq(32, i => None);
    var wp := seq(8, i => Some(NewPiece(Pawn, i + 48, White)));
    var z := BackRank(White, 56);
    assert s == a + bp + e + wp + z;
    forall i | 0 <= i < 64
      ensures s[i] == if i < 8 then a[i] else if i < 16 then bp[i - 8] else if i < 48 then e[i - 16]
                      else if i < 56 then wp[i - 48] else z[i - 56]
    {
    }
  }

  // ----- updateLeglMoves -----

  function EmptyTerritory(): (t: seq<set<Color>>)
    ensures |t| == 64 && forall s :: 0 <= s < 64 ==> t[s] == {}
  {
    seq(64, i => {})
  }

  /** `territory[square].add(c)` for every listed square. */
  function Mark(terr: seq<set<Color>>, squares: seq<int>, c: Color): (r: seq<set<Color>>)
    requires |terr| == 64 && InRange(squares)
    ensures |r| == 64
    ensures forall s :: 0 <= s < 64 ==> r[s] == if s in squares then terr[s] + {c} else terr[s]
    decreases |squares|
  {
    if squares == [] then terr
    else
      assert squares[0] in squares;
      assert forall t :: t in squares[1..] ==> t in squares;
      Mark(terr[squares[0] := terr[squares[0]] + {c}], squares[1..], c)
  }

  /** `wKAttackedSquares.filter(square => bKAttackedSquares.includes(square))` */
  function Common(a: seq<int>, b: seq<int>): (r: seq<int>)
    ensures forall s :: s in r <==> s in a && s in b
    decreases |a|
  {
    if a == [] then []
    else (if a[0] in b then [a[0]] else []) + Common(a[1..], b)
  }

  /** The squares of `a` that are not `intersection.includes`d. */
  function Outside(a: seq<int>, skip: seq<int>): (r: seq<int>)
    ensures forall s :: s in r <==> s in a && s !in skip
    decreases |a|
  {
    if a == [] then []
    else (if a[0] in skip then [] else [a[0]]) + Outside(a[1..], skip)
  }

  lemma AttackedInRange(p: Piece)
    requires InRange(p.legal) && InRange(p.defended)
    ensures InRange(AttackedSquares(p))
  {
  }

  /**
   * The king stage of the territory: each king's attacked squares get its colour,
   * except the squares both kings attack.
   */
  function KingTerritory(terr: seq<set<Color>>, wA: seq<int>, bA: seq<int>): (r: seq<set<Color>>)
    requires |terr| == 64 && InRange(wA) && InRange(bA)
    ensures |r| == 64
    ensures forall s :: 0 <= s < 64 ==> (Black in r[s] <==> Black in terr[s] || (s in bA && s !in wA))
    ensures forall s :: 0 <= s < 64 ==> (White in r[s] <==> White in terr[s] || (s in wA && s !in bA))
  {
    var both := Common(wA, bA);
    var terr1 := Mark(terr, Outside(bA, both), Black);
    Mark(terr1, Outside(wA, both), White)
  }

  /** One `generateLegalMoves` call in place: a fresh legal list, the defended list extended. */
  function Regen(p: Piece, sq: int, state: seq<Cell>, terr: seq<set<Color>>): (q: Piece)
    requires 0 <= sq < 64 && |terr| == 64
    requires InRange(p.defended)
    ensures q.kind == p.kind && q.color == p.color && q.id == p.id && q.firstMove == p.firstMove
    ensures InRange(q.legal) && InRange(q.defended)
    ensures |p.defended| <= |q.defended| && q.defended[..|p.defended|] == p.defended
    ensures forall t :: t in q.legal ==> !Own(state, t, p.color)
    ensures q.legal == Generate(p, sq, state, terr).legal
    ensures q.defended == p.defended + Generate(p, sq, state, terr).defended
  {
    var g := Generate(p, sq, state, terr);
    p.(legal := g.legal, defended := p.defended + g.defended)
  }

  /** The running values of the main loop of `updateLeglMoves`. */
  datatype Sweep = Sweep(cells: seq<Cell>, territory: seq<set<Color>>, kings: Kings)

  predicate SweepReady(state: seq<Cell>, acc: Sweep)
  {
    |state| == 64 && |acc.cells| == 64 && |acc.territory| == 64 && CachesInRange(state)
  }

  /**
   * One iteration of the main loop on square i: a King only updates the cached king
   * square of its colour; any other piece is regenerated and its attacked squares get
   * its colour.
   */
  function SweepStep(state: seq<Cell>, i: nat, acc: Sweep): (r: Sweep)
    requires i < 64 && SweepReady(state, acc)
    ensures SweepReady(state, r)
    ensures r.kings == KingsAfter(state[i], i, acc.kings)
  {
    match state[i]
    case None => acc
    case Some(p) =>
      if p.kind == King then
        var k := if p.color == Black then acc.kings.(b := i) else acc.kings.(w := i);
        acc.(kings := k)
      else
        var q := Regen(p, i, state, acc.territory);
        Sweep(acc.cells[i := Some(q)], Mark(acc.territory, AttackedSquares(q), p.color), acc.kings)
  }

  /** The main loop over squares i..63. */
  function SweepFrom(state: seq<Cell>, i: nat, acc: Sweep): (r: Sweep)
    requires i <= 64 && SweepReady(state, acc)
    ensures SweepReady(state, r)
    decreases 64 - i
  {
    if i == 64 then acc else SweepFrom(state, i + 1, SweepStep(state, i, acc))
  }

  /** The main loop from a reset territory. */
  function Swept(state: seq<Cell>, kings: Kings): (r: Sweep)
    requires |state| == 64 && CachesInRange(state)
    ensures SweepReady(state, r)
  {
    SweepFrom(state, 0, Sweep(state, EmptyTerritory(), kings))
  }

  /** A square lies in the attacked list of the non-king piece of colour c on square j. */
  predicate NonKingAttacks(cells: seq<Cell>, j: int, c: Color, s: int)
    requires 0 <= j < |cells|
  {
    cells[j].Some? && cells[j].value.kind != King && cells[j].value.color == c
    && s in AttackedSquares(cells[j].value)
  }

  /**
   * `updateLeglMoves`: the main loop, then the pieces on the two cached king squares
   * (white first) are regenerated against the loop's territory, and each king's
   * attacked squares get its colour except those both kings attack.
   */
  function Regenerate(state: seq<Cell>, prev: seq<seq<Cell>>, kings: Kings): (r: Refresh)
    requires |state| == 64 && CachesInRange(state)
    requires 0 <= kings.b < 64 && 0 <= kings.w < 64
    ensures r.Fresh? ==> Valid(r.board) && SamePieces(state, r.board.state)
    ensures r.Fresh? ==> r.board.prevStates == prev && r.board.kings == Swept(state, kings).kings
    ensures r.Fresh? ==> r.board.state[r.board.kings.w].Some? && r.board.state[r.board.kings.b].Some?
  {
    var sw := Swept(state, kings);
    SweptSummary(state, kings);
    var w := sw.kings.w;
    var b := sw.kings.b;
    if sw.cells[w].None? then Broken(NoPieceAtKingSquare(w))
    else
      var wK := Regen(sw.cells[w].value, w, sw.cells, sw.territory);
      var cells1 := sw.cells[w := Some(wK)];
      ReplaceKeepsPieces(state, sw.cells, w, wK);
      if cells1[b].None? then Broken(NoPieceAtKingSquare(b))
      else
        var bK := Regen(cells1[b].value, b, cells1, sw.territory);
        var cells2 := cells1[b := Some(bK)];
        ReplaceKeepsPieces(state, cells1, b, bK);
        assert cells2[w].Some? && cells2[b].Some?;
        var wA := AttackedSquares(cells2[w].value);
        var bA := AttackedSquares(cells2[b].value);
        AttackedInRange(cells2[w].value);
        AttackedInRange(cells2[b].value);
        var terr2 := KingTerritory(sw.territory, wA, bA);
        Fresh(Board(cells2, prev, terr2, sw.kings))
  }

  // ----- what the main loop establishes -----

  /** The loop's view of the pieces so far: pieces move nowhere, only non-kings before i are regenerated. */
  predicate CellsInv(state: seq<Cell>, i: int, acc: Sweep)
    requires SweepReady(state, acc)
  {
    && SamePieces(state, acc.cells)
    && CachesInRange(acc.cells)
    && (forall j :: 0 <= j < 64 && (j >= i || state[j].None? || state[j].value.kind == King)
          ==> acc.cells[j] == state[j])
  }

  /** Replacing a square's piece by one with the same identity keeps the pieces and the cache bounds. */
  lemma ReplaceKeepsPieces(state: seq<Cell>, cells: seq<Cell>, i: int, q: Piece)
    requires SamePieces(state, cells) && CachesInRange(cells) && 0 <= i < |cells|
    requires Strip(Some(q)) == Strip(cells[i]) && InRange(q.legal) && InRange(q.defended)
    ensures SamePieces(state, cells[i := Some(q)]) && CachesInRange(cells[i := Some(q)])
  {
    var cells' := cells[i := Some(q)];
    forall j | 0 <= j < |cells'|
      ensures Strip(cells'[j]) == Strip(state[j])
    {
      if j != i {
        assert cells'[j] == cells[j];
      }
    }
  }

  /** One loop step keeps the pieces and regenerates the piece on i when it is not a King. */
  lemma CellsStep(state: seq<Cell>, i: nat, acc: Sweep)
    requires i < 64 && SweepReady(state, acc) && CellsInv(state, i, acc)
    ensures CellsInv(state, i + 1, SweepStep(state, i, acc))
  {
    match state[i]
    case None =>
    case Some(p) =>
      if p.kind != King {
        ReplaceKeepsPieces(state, acc.cells, i, Regen(p, i, state, acc.territory));
      }
  }

  lemma {:induction false} SweepFromCells(state: seq<Cell>, i: nat, acc: Sweep)
    requires i <= 64 && SweepReady(state, acc) && CellsInv(state, i, acc)
    ensures CellsInv(state, 64, SweepFrom(state, i, acc))
    decreases 64 - i
  {
    if i < 64 {
      CellsStep(state, i, acc);
      SweepFromCells(state, i + 1, SweepStep(state, i, acc));
    }
  }

  /** The territory so far: colour c marks s iff a non-king piece of colour c before i attacks s. */
  predicate TerritoryInv(i: int, acc: Sweep)
    requires |acc.cells| == 64 && |acc.territory| == 64 && 0 <= i <= 64
  {
    forall s, c :: 0 <= s < 64 ==>
      (c in acc.territory[s] <==> exists j :: 0 <= j < i && NonKingAttacks(acc.cells, j, c, s))
  }

  /** One loop step: a regenerated non-king piece adds its colour exactly on its attacked squares. */
  lemma TerritoryStep(state: seq<Cell>, i: nat, acc: Sweep)
    requires i < 64 && SweepReady(state, acc) && CellsInv(state, i, acc) && TerritoryInv(i, acc)
    ensures TerritoryInv(i + 1, SweepStep(state, i, acc))
  {
    var acc' := SweepStep(state, i, acc);
    match state[i]
    case None =>
      forall s, c | 0 <= s < 64
        ensures c in acc'.territory[s] <==> exists j :: 0 <= j < i + 1 && NonKingAttacks(acc'.cells, j, c, s)
      {
        assert acc.cells[i] == state[i];
      }
    case Some(p) =>
      if p.kind == King {
        forall s, c | 0 <= s < 64
          ensures c in acc'.territory[s] <==> exists j :: 0 <= j < i + 1 && NonKingAttacks(acc'.cells, j, c, s)
        {
          assert acc.cells[i] == state[i];
        }
      } else {
        var q := Regen(p, i, state, acc.territory);
        forall s, c | 0 <= s < 64
          ensures c in acc'.territory[s] <==> exists j :: 0 <= j < i + 1 && NonKingAttacks(acc'.cells, j, c, s)
        {
          TerritoryStepAt(acc.cells, acc'.cells, acc.territory, i, q, s, c);
        }
      }
  }

  /** `TerritoryStep` on one square and colour, stated over the cells and territory alone. */
  lemma TerritoryStepAt(cells: seq<Cell>, cells': seq<Cell>, terr: seq<set<Color>>, i: nat, q: Piece, s: int, c: Color)
    requires |cells| == 64 && |terr| == 64 && i < 64 && 0 <= s < 64
    requires q.kind != King && InRange(q.legal) && InRange(q.defended)
    requires cells' == cells[i := Some(q)]
    requires c in terr[s] <==> exists j :: 0 <= j < i && NonKingAttacks(cells, j, c, s)
    ensures c in Mark(terr, AttackedSquares(q), q.color)[s] <==>
      exists j :: 0 <= j < i + 1 && NonKingAttacks(cells', j, c, s)
  {
    if c in Mark(terr, AttackedSquares(q), q.color)[s] {
      if c == q.color && s in AttackedSquares(q) {
        assert NonKingAttacks(cells', i, c, s);
      } else {
        var j :| 0 <= j < i && NonKingAttacks(cells, j, c, s);
        assert cells'[j] == cells[j];
        assert NonKingAttacks(cells', j, c, s);
      }
    }
    if exists j :: 0 <= j < i + 1 && NonKingAttacks(cells', j, c, s) {
      var j :| 0 <= j < i + 1 && NonKingAttacks(cells', j, c, s);
      if j < i {
        assert cells'[j] == cells[j];
        assert NonKingAttacks(cells, j, c, s);
      }
    }
  }

  lemma {:induction false} SweepFromTerritory(state: seq<Cell>, i: nat, acc: Sweep)
    requires i <= 64 && SweepReady(state, acc) && CellsInv(state, i, acc) && TerritoryInv(i, acc)
    ensures TerritoryInv(64, SweepFrom(state, i, acc))
    decreases 64 - i
  {
    if i < 64 {
      TerritoryStep(state, i, acc);
      CellsStep(state, i, acc);
      SweepFromTerritory(state, i + 1, SweepStep(state, i, acc));
    }
  }

  /** The cached square of colour c: the last king of c before i, or the starting value if none. */
  predicate KingInv(state: seq<Cell>, i: int, k: int, k0: int, c: Color)
    requires |state| == 64 && 0 <= i <= 64
  {
    && ((exists j :: 0 <= j < i && IsKingOf(state[j], c)) ==>
          0 <= k < i && IsKingOf(state[k], c) && forall j :: k < j < i ==> !IsKingOf(state[j], c))
    && ((forall j :: 0 <= j < i ==> !IsKingOf(state[j], c)) ==> k == k0)
  }

  lemma KingStep(state: seq<Cell>, i: nat, k: int, k0: int, c: Color)
    requires i < 64 && |state| == 64 && KingInv(state, i, k, k0, c)
    ensures IsKingOf(state[i], c) ==> KingInv(state, i + 1, i, k0, c)
    ensures !IsKingOf(state[i], c) ==> KingInv(state, i + 1, k, k0, c)
  {
    if !IsKingOf(state[i], c) {
      if exists j :: 0 <= j < i + 1 && IsKingOf(state[j], c) {
        var j :| 0 <= j < i + 1 && IsKingOf(state[j], c);
        assert j < i;
      }
    }
  }

  /** The kings a loop step leaves: a King updates the slot of its colour, anything else none. */
  function KingsAfter(cell: Cell, i: int, k: Kings): (r: Kings)
    ensures r.b == (if IsKingOf(cell, Black) then i else k.b)
    ensures r.w == (if IsKingOf(cell, White) then i else k.w)
  {
    match cell
    case None => k
    case Some(p) =>
      if p.kind != King then k
      else if p.color == Black then k.(b := i) else k.(w := i)
  }

  lemma {:induction false} SweepFromKings(state: seq<Cell>, i: nat, acc: Sweep, k0: Kings)
    requires i <= 64 && SweepReady(state, acc)
    requires KingInv(state, i, acc.kings.b, k0.b, Black) && KingInv(state, i, acc.kings.w, k0.w, White)
    ensures var r := SweepFrom(state, i, acc);
      KingInv(state, 64, r.kings.b, k0.b, Black) && KingInv(state, 64, r.kings.w, k0.w, White)
    decreases 64 - i
  {
    if i < 64 {
      KingStep(state, i, acc.kings.b, k0.b, Black);
      KingStep(state, i, acc.kings.w, k0.w, White);
      SweepFromKings(state, i + 1, SweepStep(state, i, acc), k0);
    }
  }

  /** The main loop keeps every piece on its square and regenerates exactly the non-kings. */
  lemma SweptCells(state: seq<Cell>, kings: Kings)
    requires |state| == 64 && CachesInRange(state)
    ensures CellsInv(state, 64, Swept(state, kings))
  {
    SweepFromCells(state, 0, Sweep(state, EmptyTerritory(), kings));
  }

  /** What the king stage needs of the main loop. */
  lemma SweptSummary(state: seq<Cell>, kings: Kings)
    requires |state| == 64 && CachesInRange(state) && 0 <= kings.b < 64 && 0 <= kings.w < 64
    ensures SamePieces(state, Swept(state, kings).cells) && CachesInRange(Swept(state, kings).cells)
    ensures 0 <= Swept(state, kings).kings.b < 64 && 0 <= Swept(state, kings).kings.w < 64
  {
    SweptCells(state, kings);
    SweptKings(state, kings);
  }

  /**
   * After the main loop a colour marks a square exactly when a non-king piece of that
   * colour lists it among its (fresh) legal or (accumulated) defended squares.
   */
  lemma SweptTerritory(state: seq<Cell>, kings: Kings)
    requires |state| == 64 && CachesInRange(state)
    ensures TerritoryInv(64, Swept(state, kings))
  {
    SweepFromTerritory(state, 0, Sweep(state, EmptyTerritory(), kings));
  }

  /**
   * After the main loop the cached square of each colour holds the last king of that
   * colour on the board, and is left unchanged when there is none.
   */
  lemma SweptKings(state: seq<Cell>, kings: Kings)
    requires |state| == 64 && CachesInRange(state)
    ensures KingInv(state, 64, Swept(state, kings).kings.b, kings.b, Black)
    ensures KingInv(state, 64, Swept(state, kings).kings.w, kings.w, White)
  {
    SweepFromKings(state, 0, Sweep(state, EmptyTerritory(), kings), kings);
  }

  /** Every non-king piece before i has been regenerated once against the input position. */
  predicate RegenInv(state: seq<Cell>, i: int, acc: Sweep)
    requires SweepReady(state, acc)
  {
    forall j :: 0 <= j < i && j < 64 && state[j].Some? && state[j].value.kind != King ==>
      acc.cells[j] == Some(Regen(state[j].value, j, state, EmptyTerritory()))
  }

  lemma {:induction false} SweepFromRegen(state: seq<Cell>, i: nat, acc: Sweep)
    requires i <= 64 && SweepReady(state, acc) && RegenInv(state, i, acc)
    ensures RegenInv(state, 64, SweepFrom(state, i, acc))
    decreases 64 - i
  {
    if i < 64 {
      RegenStep(state, i, acc);
      SweepFromRegen(state, i + 1, SweepStep(state, i, acc));
    }
  }

  /** One loop step: the territory a non-king piece is regenerated against does not matter. */
  lemma RegenStep(state: seq<Cell>, i: nat, acc: Sweep)
    requires i < 64 && SweepReady(state, acc) && RegenInv(state, i, acc)
    ensures RegenInv(state, i + 1, SweepStep(state, i, acc))
  {
    match state[i]
    case None =>
    case Some(p) =>
      if p.kind != King {
        GenerationReadsOnlyColors(p, p, i, state, state, acc.territory, EmptyTerritory());
      }
  }

  /** Two arrays holding the same pieces show the same colours to generation. */
  lemma SamePiecesSameColors(s1: seq<Cell>, s2: seq<Cell>)
    requires SamePieces(s1, s2)
    ensures forall t :: 0 <= t < 64 ==> ColorAt(s1, t) == ColorAt(s2, t)
  {
    forall t | 0 <= t < 64
      ensures ColorAt(s1, t) == ColorAt(s2, t)
    {
      if 0 <= t < |s1| {
        assert Strip(s1[t]) == Strip(s2[t]);
      }
    }
  }

  /** Which squares hold a king of a colour depends only on the pieces. */
  lemma KingInvSamePieces(s1: seq<Cell>, s2: seq<Cell>, k: int, k0: int, c: Color)
    requires |s1| == 64 && SamePieces(s1, s2) && KingInv(s1, 64, k, k0, c)
    ensures KingInv(s2, 64, k, k0, c)
  {
    assert forall j :: 0 <= j < 64 ==> (IsKingOf(s1[j], c) <==> IsKingOf(s2[j], c)) by {
      forall j | 0 <= j < 64
        ensures IsKingOf(s1[j], c) <==> IsKingOf(s2[j], c)
      {
        assert Strip(s1[j]) == Strip(s2[j]);
      }
    }
  }

  // ----- what a regeneration establishes -----

  /**
   * After a regeneration each cached king square holds the last king of its colour on
   * the board; when the colour has no king the cached square is left as it was.
   */
  lemma RegenerateKings(state: seq<Cell>, prev: seq<seq<Cell>>, kings: Kings, c: Color)
    requires |state| == 64 && CachesInRange(state) && 0 <= kings.b < 64 && 0 <= kings.w < 64
    requires Regenerate(state, prev, kings).Fresh?
    ensures var r := Regenerate(state, prev, kings).board;
      KingInv(r.state, 64, KingSquare(r.kings, c), KingSquare(kings, c), c)
  {
    var r := Regenerate(state, prev, kings).board;
    SweptKings(state, kings);
    KingInvSamePieces(state, r.state, KingSquare(r.kings, c), KingSquare(kings, c), c);
  }

  /** With a king of each colour on the board the regeneration cannot fail. */
  lemma RegenerateSucceeds(state: seq<Cell>, prev: seq<seq<Cell>>, kings: Kings)
    requires |state| == 64 && CachesInRange(state) && 0 <= kings.b < 64 && 0 <= kings.w < 64
    requires exists i :: 0 <= i < 64 && IsKingOf(state[i], Black)
    requires exists i :: 0 <= i < 64 && IsKingOf(state[i], White)
    ensures Regenerate(state, prev, kings).Fresh?
  {
    var sw := Swept(state, kings);
    SweptKings(state, kings);
    SweptCells(state, kings);
    assert sw.cells[sw.kings.w] == state[sw.kings.w];
    assert sw.cells[sw.kings.b] == state[sw.kings.b];
  }

  /**
   * Regeneration fails exactly when a cached king square, as the main loop leaves it,
   * is empty; whatever piece stands there, of either colour and any kind, is taken for
   * that colour's king.
   */
  lemma RegenerateFreshIffSlotsHeld(state: seq<Cell>, prev: seq<seq<Cell>>, kings: Kings)
    requires |state| == 64 && CachesInRange(state) && 0 <= kings.b < 64 && 0 <= kings.w < 64
    ensures var k := Swept(state, kings).kings;
      0 <= k.w < 64 && 0 <= k.b < 64 &&
      (Regenerate(state, prev, kings).Fresh? <==> state[k.w].Some? && state[k.b].Some?)
  {
    var sw := Swept(state, kings);
    SweptSummary(state, kings);
    assert Strip(sw.cells[sw.kings.w]) == Strip(state[sw.kings.w]);
    assert Strip(sw.cells[sw.kings.b]) == Strip(state[sw.kings.b]);
  }

  /**
   * After a black king is captured on its cached square, the capturing piece stands
   * there and no black king is left: the cached square is kept, regeneration succeeds,
   * and that piece is treated as black's king.
   */
  lemma RegenerateKeepsStaleSlot(state: seq<Cell>, prev: seq<seq<Cell>>, kings: Kings)
    requires |state| == 64 && CachesInRange(state) && 0 <= kings.b < 64 && 0 <= kings.w < 64
    requires forall i :: 0 <= i < 64 ==> !IsKingOf(state[i], Black)
    requires exists i :: 0 <= i < 64 && IsKingOf(state[i], White)
    requires state[kings.b].Some?
    ensures Regenerate(state, prev, kings).Fresh?
    ensures Regenerate(state, prev, kings).board.kings.b == kings.b
  {
    SweptKings(state, kings);
    RegenerateFreshIffSlotsHeld(state, prev, kings);
  }

  /**
   * Without a white king, a regeneration whose cached white square is empty fails
   * there: the source calls `generateLegalMoves` on `undefined`.
   */
  lemma RegenerateFailsWithoutKing(state: seq<Cell>, prev: seq<seq<Cell>>, kings: Kings)
    requires |state| == 64 && CachesInRange(state) && 0 <= kings.b < 64 && 0 <= kings.w < 64
    requires forall i :: 0 <= i < 64 ==> !IsKingOf(state[i], White)
    requires state[kings.w].None?
    ensures Regenerate(state, prev, kings) == Broken(NoPieceAtKingSquare(kings.w))
  {
    SweptKings(state, kings);
    SweptCells(state, kings);
  }

  /**
   * The territory after a regeneration: a square is under attack by a colour iff a non-king piece of
   * that colour attacked it in the main loop, or the piece on that colour's cached king
   * square attacks it and the other king square's piece does not.
   */
  lemma RegenerateTerritory(state: seq<Cell>, prev: seq<seq<Cell>>, kings: Kings, s: int, c: Color)
    requires |state| == 64 && CachesInRange(state) && 0 <= kings.b < 64 && 0 <= kings.w < 64
    requires Regenerate(state, prev, kings).Fresh? && 0 <= s < 64
    ensures var r := Regenerate(state, prev, kings).board;
      var sw := Swept(state, kings);
      var wA := AttackedSquares(r.state[r.kings.w].value);
      var bA := AttackedSquares(r.state[r.kings.b].value);
      IsUnderAttack(r, s, c) <==>
        || (exists j :: 0 <= j < 64 && NonKingAttacks(sw.cells, j, c, s))
        || (c == Black && s in bA && s !in wA)
        || (c == White && s in wA && s !in bA)
  {
    SweptTerritory(state, kings);
  }

  /** Facts every case below needs: a regeneration keeps pieces, colours and cache bounds. */
  predicate RegenReady(state: seq<Cell>, kings: Kings)
  {
    |state| == 64 && CachesInRange(state) && 0 <= kings.b < 64 && 0 <= kings.w < 64
  }

  /** Off the two cached king squares a regeneration keeps what the main loop left. */
  lemma RegenerateOffSlots(state: seq<Cell>, prev: seq<seq<Cell>>, kings: Kings, i: int)
    requires RegenReady(state, kings) && Regenerate(state, prev, kings).Fresh? && 0 <= i < 64
    requires var r := Regenerate(state, prev, kings).board; i != r.kings.w && i != r.kings.b
    ensures Regenerate(state, prev, kings).board.state[i] == Swept(state, kings).cells[i]
  {
    SweptSummary(state, kings);
  }

  /** A list followed by n copies of another: what n generations leave in `defended`. */
  function Appended(base: seq<int>, extra: seq<int>, n: nat): seq<int>
  {
    if n == 0 then base else Appended(base, extra, n - 1) + extra
  }

  /**
   * How often `updateLeglMoves` regenerates the piece on square i: once in the main loop
   * unless it is a King, and once more for each cached king square it stands on.
   */
  function Regenerations(p: Piece, i: int, k: Kings): nat
  {
    (if p.kind != King then 1 else 0) + (if i == k.w then 1 else 0) + (if i == k.b then 1 else 0)
  }

  /** The `defended` list the main loop leaves on square i, in terms of generation on the final board. */
  lemma SweptDefended(state: seq<Cell>, prev: seq<seq<Cell>>, kings: Kings, i: int)
    requires RegenReady(state, kings) && Regenerate(state, prev, kings).Fresh? && 0 <= i < 64
    requires Regenerate(state, prev, kings).board.state[i].Some?
    ensures var r := Regenerate(state, prev, kings).board; var sw := Swept(state, kings);
      var p := r.state[i].value; var g := Generate(p, i, r.state, sw.territory);
      state[i].Some? && sw.cells[i].Some? &&
      sw.cells[i].value.defended ==
        if p.kind == King then state[i].value.defended else state[i].value.defended + g.defended
  {
    var r := Regenerate(state, prev, kings).board;
    var sw := Swept(state, kings);
    assert Strip(state[i]) == Strip(r.state[i]);
    SweptCells(state, kings);
    SweepFromRegen(state, 0, Sweep(state, EmptyTerritory(), kings));
    if r.state[i].value.kind != King {
      SamePiecesSameColors(state, r.state);
      GenerationReadsOnlyColors(state[i].value, r.state[i].value, i, state, r.state, EmptyTerritory(), sw.territory);
    }
  }

  lemma FreshOffSlots(state: seq<Cell>, prev: seq<seq<Cell>>, kings: Kings, i: int)
    requires RegenReady(state, kings) && Regenerate(state, prev, kings).Fresh? && 0 <= i < 64
    requires var r := Regenerate(state, prev, kings).board;
      r.state[i].Some? && r.state[i].value.kind != King && i != r.kings.w && i != r.kings.b
    ensures var r := Regenerate(state, prev, kings).board;
      var g := Generate(r.state[i].value, i, r.state, Swept(state, kings).territory);
      state[i].Some? && r.state[i].value.legal == g.legal &&
      r.state[i].value.defended == state[i].value.defended + g.defended
  {
    var r := Regenerate(state, prev, kings).board;
    var sw := Swept(state, kings);
    RegenerateOffSlots(state, prev, kings, i);
    assert state[i].Some? && state[i].value.kind != King by {
      assert Strip(state[i]) == Strip(r.state[i]);
    }
    SweptDefended(state, prev, kings, i);
    SweepFromRegen(state, 0, Sweep(state, EmptyTerritory(), kings));
    SamePiecesSameColors(state, r.state);
    GenerationReadsOnlyColors(state[i].value, r.state[i].value, i, state, r.state, EmptyTerritory(), sw.territory);
  }

  lemma FreshOnWhiteSlot(state: seq<Cell>, prev: seq<seq<Cell>>, kings: Kings)
    requires RegenReady(state, kings) && Regenerate(state, prev, kings).Fresh?
    requires var r := Regenerate(state, prev, kings).board; r.kings.w != r.kings.b
    ensures var r := Regenerate(state, prev, kings).board; var w := r.kings.w; var sw := Swept(state, kings);
      var g := Generate(r.state[w].value, w, r.state, sw.territory);
      sw.cells[w].Some? && r.state[w].value.legal == g.legal &&
      r.state[w].value.defended == sw.cells[w].value.defended + g.defended
  {
    var r := Regenerate(state, prev, kings).board;
    var sw := Swept(state, kings);
    var w := sw.kings.w;
    SweptSummary(state, kings);
    SamePiecesSameColors(sw.cells, r.state);
    GenerationReadsOnlyColors(sw.cells[w].value, r.state[w].value, w, sw.cells, r.state, sw.territory, sw.territory);
  }

  lemma FreshOnBlackSlot(state: seq<Cell>, prev: seq<seq<Cell>>, kings: Kings)
    requires RegenReady(state, kings) && Regenerate(state, prev, kings).Fresh?
    ensures var r := Regenerate(state, prev, kings).board; var b := r.kings.b; var sw := Swept(state, kings);
      var g := Generate(r.state[b].value, b, r.state, sw.territory);
      sw.cells[b].Some? && r.state[b].value.legal == g.legal &&
      r.state[b].value.defended ==
        if r.kings.w == b then sw.cells[b].value.defended + g.defended + g.defended
        else sw.cells[b].value.defended + g.defended
  {
    var r := Regenerate(state, prev, kings).board;
    var sw := Swept(state, kings);
    var w := sw.kings.w;
    var b := sw.kings.b;
    SweptSummary(state, kings);
    var cells1 := sw.cells[w := Some(Regen(sw.cells[w].value, w, sw.cells, sw.territory))];
    ReplaceKeepsPieces(state, sw.cells, w, cells1[w].value);
    SamePiecesSameColors(cells1, r.state);
    GenerationReadsOnlyColors(cells1[b].value, r.state[b].value, b, cells1, r.state, sw.territory, sw.territory);
    if w == b {
      SamePiecesSameColors(sw.cells, r.state);
      GenerationReadsOnlyColors(sw.cells[w].value, r.state[w].value, w, sw.cells, r.state, sw.territory, sw.territory);
    }
  }

  /**
   * After a regeneration every piece's cached legal list is what generation gives on
   * the board as it now stands, against the main loop's territory; the only exception
   * is a King off both cached squares, which the loop skips. Its `defended` list is the
   * old one followed by that generation's defended squares, once per regeneration the
   * piece went through.
   */
  lemma RegenerateMovesAreFresh(state: seq<Cell>, prev: seq<seq<Cell>>, kings: Kings, i: int)
    requires RegenReady(state, kings)
    requires Regenerate(state, prev, kings).Fresh? && 0 <= i < 64
    requires var r := Regenerate(state, prev, kings).board;
      r.state[i].Some? && (r.state[i].value.kind != King || i == r.kings.w || i == r.kings.b)
    ensures var r := Regenerate(state, prev, kings).board;
      r.state[i].value.legal == Generate(r.state[i].value, i, r.state, Swept(state, kings).territory).legal
    ensures var r := Regenerate(state, prev, kings).board;
      var g := Generate(r.state[i].value, i, r.state, Swept(state, kings).territory);
      state[i].Some? &&
      r.state[i].value.defended == Appended(state[i].value.defended, g.defended, Regenerations(r.state[i].value, i, r.kings))
  {
    var r := Regenerate(state, prev, kings).board;
    var p := r.state[i].value;
    var g := Generate(p, i, r.state, Swept(state, kings).territory);
    SweptDefended(state, prev, kings, i);
    var base := state[i].value.defended;
    assert Appended(base, g.defended, 1) == base + g.defended;
    assert Appended(base, g.defended, 2) == base + g.defended + g.defended;
    assert Appended(base, g.defended, 3) == base + g.defended + g.defended + g.defended;
    if i == r.kings.b {
      FreshOnBlackSlot(state, prev, kings);
    } else if i == r.kings.w {
      FreshOnWhiteSlot(state, prev, kings);
    } else {
      FreshOffSlots(state, prev, kings, i);
    }
  }

  /** A King off both cached squares goes through no generation: its caches stay as they were. */
  lemma RegenerateSkipsOtherKings(state: seq<Cell>, prev: seq<seq<Cell>>, kings: Kings, i: int)
    requires RegenReady(state, kings) && Regenerate(state, prev, kings).Fresh? && 0 <= i < 64
    requires var r := Regenerate(state, prev, kings).board; i != r.kings.w && i != r.kings.b
    requires state[i].Some? && state[i].value.kind == King
    ensures Regenerate(state, prev, kings).board.state[i] == state[i]
  {
    RegenerateOffSlots(state, prev, kings, i);
    SweptCells(state, kings);
  }

  /**
   * A king on its cached square never lists a square that an opposing non-king piece
   * attacked during the main loop.
   */
  lemma KingAvoidsAttackedSquares(state: seq<Cell>, prev: seq<seq<Cell>>, kings: Kings, c: Color, t: int)
    requires |state| == 64 && CachesInRange(state) && 0 <= kings.b < 64 && 0 <= kings.w < 64
    requires Regenerate(state, prev, kings).Fresh?
    requires var r := Regenerate(state, prev, kings).board;
      IsKingOf(r.state[KingSquare(r.kings, c)], c) && t in r.state[KingSquare(r.kings, c)].value.legal
    ensures var sw := Swept(state, kings);
      0 <= t < 64 && forall j :: 0 <= j < 64 ==> !NonKingAttacks(sw.cells, j, Adversary(c), t)
  {
    var r := Regenerate(state, prev, kings).board;
    var sw := Swept(state, kings);
    var k := KingSquare(r.kings, c);
    RegenerateMovesAreFresh(state, prev, kings, k);
    SweptTerritory(state, kings);
    var p := r.state[k].value;
    var g := Generate(p, k, r.state, sw.territory);
    assert t in g.legal + g.defended;
    assert 0 <= t < 64 && Adversary(c) !in sw.territory[t];
  }

  // ----- the constructor -----

  /** A position with exactly one king per colour, each on its cached square. */
  predicate Constructible(s: seq<Cell>, k: Kings)
  {
    && |s| == 64 && CachesInRange(s) && 0 <= k.b < 64 && 0 <= k.w < 64
    && (forall j :: 0 <= j < 64 ==> (IsKingOf(s[j], Black) <==> j == k.b))
    && (forall j :: 0 <= j < 64 ==> (IsKingOf(s[j], White) <==> j == k.w))
  }

  /** A regeneration of a constructible position: it cannot fail and keeps the cached king squares. */
  function Construct(s: seq<Cell>, k: Kings): (b: Board)
    requires Constructible(s, k)
    ensures Valid(b) && SamePieces(s, b.state)
    ensures b.prevStates == [] && b.kings == k
  {
    assert IsKingOf(s[k.b], Black) && IsKingOf(s[k.w], White);
    RegenerateSucceeds(s, [], k);
    RegenerateKings(s, [], k, Black);
    RegenerateKings(s, [], k, White);
    var r := Regenerate(s, [], k).board;
    KingsFollowPieces(s, r.state);
    r
  }

  lemma KingsFollowPieces(s1: seq<Cell>, s2: seq<Cell>)
    requires SamePieces(s1, s2)
    ensures forall j, c :: 0 <= j < |s1| ==> (IsKingOf(s2[j], c) <==> IsKingOf(s1[j], c))
  {
    forall j, c | 0 <= j < |s1|
      ensures IsKingOf(s2[j], c) <==> IsKingOf(s1[j], c)
    {
      assert Strip(s2[j]) == Strip(s1[j]);
    }
  }

  /** `new Board()`: the initial position, kings cached on 4 and 60, then one regeneration. */
  function InitialBoard(): (b: Board)
    ensures Valid(b) && SamePieces(InitialState(), b.state)
    ensures b.prevStates == [] && b.kings == Kings(4, 60)
  {
    InitialStateFacts();
    assert Constructible(InitialState(), Kings(4, 60));
    Construct(InitialState(), Kings(CastleSquares(KingSide, Black).kingFrom, CastleSquares(KingSide, White).kingFrom))
  }
}
