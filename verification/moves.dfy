/**
 * The move protocol of web/src/board.ts: `movePiece` with its gate, capture, castling
 * rook relocation and first-move flag, followed by a regeneration; and the accessors
 * `takePiece` and `getLegalMoves`.
 *
 * A successful move in the source mutates the board; here it returns the new board.
 * The source's two run-time failures (no rook table entry for a two-square King
 * move, an empty cached king square during regeneration) are `Crash` outcomes.
 */
module Moves {
  import opened Options
  import opened Pieces
  import opened MoveGen
  import opened Board

  /** `MoveType`: MOVE is `Plain`. No code path produces EN_PASSANT. */
  datatype MoveType = Plain | Take | Castle | EnPassant

  /** The two shapes of `MoveAction` the board produces. */
  datatype MoveAction = Simple(move: Move) | WithRook(rook: Move, move: Move)

  datatype MoveOperation = MoveOperation(success: bool, kind: MoveType, action: MoveAction)

  datatype Outcome = Done(board: Board, op: MoveOperation) | Crash(fault: Fault)

  /** The placeholder move `{from: -1, to: -1}` of the initial operation. */
  const NoMove := Move(-1, -1)

  /** The operation `movePiece` starts from and returns when the gate refuses. */
  const Rejected := MoveOperation(false, Plain, Simple(NoMove))

  predicate IsTurnOf(p: Piece, whitesTurn: bool)
  {
    (p.color == White && whitesTurn) || (p.color == Black && !whitesTurn)
  }

  /** The gate: a piece stands on `from`, it is its colour's turn, and `to` is in its cached legal list. */
  predicate Accepts(b: Board, m: Move, whitesTurn: bool)
  {
    At(b.state, m.from).Some? && IsTurnOf(At(b.state, m.from).value, whitesTurn)
    && IsLegalMove(At(b.state, m.from).value, m.to)
  }

  function Abs(a: int): (n: nat)
  {
    if a < 0 then -a else a
  }

  /** A King moving exactly two squares (in index distance) is taken for a castle. */
  predicate IsCastle(p: Piece, m: Move)
  {
    p.kind == King && Abs(m.to - m.from) == 2
  }

  /** The mover after its first move: Pawn, King and Rook clear the flag, other kinds keep it. */
  function FirstMoveDone(p: Piece): (q: Piece)
    ensures q.kind == p.kind && q.color == p.color && q.id == p.id
    ensures q.legal == p.legal && q.defended == p.defended
    ensures q.firstMove == (p.firstMove && p.kind != Pawn && p.kind != King && p.kind != Rook)
  {
    if p.kind == Pawn || p.kind == King || p.kind == Rook then p.(firstMove := false) else p
  }

  /** `takePiece(to)`: the square is emptied and nothing else changes. */
  function TakePiece(state: seq<Cell>, to: int): (r: seq<Cell>)
    requires 0 <= to < |state|
    ensures |r| == |state| && r[to].None?
    ensures forall i :: 0 <= i < |state| && i != to ==> r[i] == state[i]
  {
    state[to := None]
  }

  /** `getLegalMoves(square)`: the cached legal list of the piece there, or nothing. */
  function GetLegalMoves(b: Board, square: int): (moves: seq<int>)
  {
    match At(b.state, square)
    case None => []
    case Some(p) => p.legal
  }

  lemma UpdateKeepsCaches(s: seq<Cell>, i: int, v: Cell)
    requires CachesInRange(s) && 0 <= i < |s|
    requires v.Some? ==> InRange(v.value.legal) && InRange(v.value.defended)
    ensures CachesInRange(s[i := v])
  {
  }

  /** The array changes of an accepted move, before the regeneration. */
  datatype Applied = Applied(state: seq<Cell>, kind: MoveType, action: MoveAction) | Unapplied(fault: Fault)

  /**
   * The body of `movePiece` past the gate: take the occupant of `to`, empty `from`,
   * clear the mover's first-move flag, move the castling rook (read after both
   * squares were emptied; an absent rook leaves its destination empty), then put the
   * mover on `to`.
   */
  function Apply(state: seq<Cell>, m: Move, piece: Piece): (r: Applied)
    requires |state| == 64 && CachesInRange(state) && 0 <= m.from < 64 && 0 <= m.to < 64
    requires state[m.from] == Some(piece)
    ensures r.Applied? ==> |r.state| == 64 && CachesInRange(r.state)
  {
    var taken := state[m.to].Some?;
    var s1 := if taken then TakePiece(state, m.to) else state;
    var s2 := s1[m.from := None];
    var mover := FirstMoveDone(piece);
    assert InRange(piece.legal) && InRange(piece.defended);
    UpdateKeepsCaches(state, m.to, None);
    UpdateKeepsCaches(s1, m.from, None);
    if IsCastle(piece, m) then
      match CastleRookMove(m.to)
      case None => Unapplied(NoCastleEntry(m.to))
      case Some(rm) =>
        var rook := s2[rm.from];
        var s3 := s2[rm.from := None][rm.to := rook];
        UpdateKeepsCaches(s2, rm.from, None);
        UpdateKeepsCaches(s2[rm.from := None], rm.to, rook);
        UpdateKeepsCaches(s3, m.to, Some(mover));
        Applied(s3[m.to := Some(mover)], Castle, WithRook(rm, m))
    else
      UpdateKeepsCaches(s2, m.to, Some(mover));
      Applied(s2[m.to := Some(mover)], if taken then Take else Plain, if taken then Simple(m) else Simple(NoMove))
  }

  /**
   * `movePiece(move, whitesTurn)`: a refused move returns the unchanged board with the
   * failed operation; an accepted one records a snapshot of the position before it,
   * applies the move and regenerates.
   */
  function MovePiece(b: Board, m: Move, whitesTurn: bool): (r: Outcome)
    requires Valid(b)
    ensures !Accepts(b, m, whitesTurn) <==> r == Done(b, Rejected)
    ensures Accepts(b, m, whitesTurn) ==> r.Crash? || (r.Done? && r.op.success)
    ensures r.Done? ==> Valid(r.board)
    ensures r.Done? && r.op.success ==> r.board.prevStates == b.prevStates + [b.state]
  {
    if !Accepts(b, m, whitesTurn) then Done(b, Rejected)
    else
      var p := b.state[m.from].value;
      assert 0 <= m.to < 64 by {
        assert InRange(p.legal);
      }
      match Apply(b.state, m, p)
      case Unapplied(f) => Crash(f)
      case Applied(s, kind, action) =>
        match Regenerate(s, b.prevStates + [b.state], b.kings)
        case Broken(f) => Crash(f)
        case Fresh(nb) => Done(nb, MoveOperation(true, kind, action))
  }

  // ----- what a successful move does -----

  /** The move went through: the gate accepted it and nothing failed. */
  predicate Succeeded(b: Board, m: Move, whitesTurn: bool)
    requires Valid(b)
  {
    MovePiece(b, m, whitesTurn).Done? && MovePiece(b, m, whitesTurn).op.success
  }

  /** The board a successful move leaves matches the pieces of the applied array. */
  lemma SucceededShape(b: Board, m: Move, whitesTurn: bool)
    requires Valid(b) && Succeeded(b, m, whitesTurn)
    ensures Accepts(b, m, whitesTurn) && 0 <= m.from < 64 && 0 <= m.to < 64
    ensures var a := Apply(b.state, m, b.state[m.from].value);
      && a.Applied?
      && SamePieces(a.state, MovePiece(b, m, whitesTurn).board.state)
      && MovePiece(b, m, whitesTurn).op == MoveOperation(true, a.kind, a.action)
  {
    var p := b.state[m.from].value;
    assert InRange(p.legal);
  }

  /**
   * After a successful move the mover stands on `to` with its first-move flag cleared
   * if it is a Pawn, King or Rook, and `from` is empty.
   */
  lemma MoveRelocatesMover(b: Board, m: Move, whitesTurn: bool)
    requires Valid(b) && Succeeded(b, m, whitesTurn)
    ensures var p := b.state[m.from].value; var r := MovePiece(b, m, whitesTurn).board;
      && r.state[m.to].Some?
      && Strip(r.state[m.to]) == Strip(Some(FirstMoveDone(p)))
      && (m.from != m.to ==> r.state[m.from].None?)
  {
    SucceededShape(b, m, whitesTurn);
    var a := Apply(b.state, m, b.state[m.from].value);
    var r := MovePiece(b, m, whitesTurn).board;
    ApplyPlacesMover(b.state, m, b.state[m.from].value);
    assert Strip(a.state[m.to]) == Strip(r.state[m.to]);
    assert Strip(a.state[m.from]) == Strip(r.state[m.from]);
  }

  lemma ApplyPlacesMover(state: seq<Cell>, m: Move, piece: Piece)
    requires |state| == 64 && CachesInRange(state) && 0 <= m.from < 64 && 0 <= m.to < 64
    requires state[m.from] == Some(piece) && Apply(state, m, piece).Applied?
    ensures Apply(state, m, piece).state[m.to] == Some(FirstMoveDone(piece))
    ensures m.from != m.to ==> Apply(state, m, piece).state[m.from].None?
  {
    if IsCastle(piece, m) {
      var rm := CastleRookMove(m.to).value;
      assert rm.to != m.from;
    }
  }

  /**
   * The operation reported: CASTLE exactly for a King moving two squares, carrying the
   * table's rook move; otherwise TAKE with the move when `to` was occupied, and MOVE
   * with the placeholder move when it was not. EN_PASSANT never occurs.
   */
  lemma MoveOperationKind(b: Board, m: Move, whitesTurn: bool)
    requires Valid(b) && Succeeded(b, m, whitesTurn)
    ensures var p := b.state[m.from].value; var op := MovePiece(b, m, whitesTurn).op;
      && (op.kind == Castle <==> IsCastle(p, m))
      && (op.kind == Take <==> !IsCastle(p, m) && b.state[m.to].Some?)
      && op.kind != EnPassant
      && (op.kind == Castle ==> CastleRookMove(m.to).Some? && op.action == WithRook(CastleRookMove(m.to).value, m))
      && (op.kind == Take ==> op.action == Simple(m))
      && (op.kind == Plain ==> op.action == Simple(NoMove))
  {
    SucceededShape(b, m, whitesTurn);
  }

  /**
   * A two-square King move to a square that is no castling destination of the table
   * fails: the source reads the rook move of an action that has none.
   */
  lemma CastleWithoutEntryCrashes(b: Board, m: Move, whitesTurn: bool)
    requires Valid(b) && Accepts(b, m, whitesTurn)
    requires IsCastle(b.state[m.from].value, m) && CastleRookMove(m.to).None?
    ensures MovePiece(b, m, whitesTurn) == Crash(NoCastleEntry(m.to))
  {
    assert InRange(b.state[m.from].value.legal);
  }

  /**
   * A castle moves the rook: the table's rook square is emptied and the piece that
   * stood there (nothing, if the King itself came from it) lands on the rook's target.
   */
  lemma CastleMovesRook(b: Board, m: Move, whitesTurn: bool)
    requires Valid(b) && Succeeded(b, m, whitesTurn) && MovePiece(b, m, whitesTurn).op.kind == Castle
    ensures CastleRookMove(m.to).Some?
    ensures var rm := CastleRookMove(m.to).value; var r := MovePiece(b, m, whitesTurn).board;
      && r.state[rm.from].None?
      && Strip(r.state[rm.to]) == Strip(if rm.from == m.from then None else b.state[rm.from])
  {
    SucceededShape(b, m, whitesTurn);
    var p := b.state[m.from].value;
    var rm := CastleRookMove(m.to).value;
    var a := Apply(b.state, m, p);
    var r := MovePiece(b, m, whitesTurn).board;
    assert rm.from != m.to && rm.to != m.to;
    assert Strip(a.state[rm.from]) == Strip(r.state[rm.from]);
    assert Strip(a.state[rm.to]) == Strip(r.state[rm.to]);
  }

  /** No square other than `from`, `to` and, for a castle, the two rook squares changes occupant. */
  lemma MoveLeavesOthers(b: Board, m: Move, whitesTurn: bool, i: int)
    requires Valid(b) && Succeeded(b, m, whitesTurn) && 0 <= i < 64 && i != m.from && i != m.to
    requires MovePiece(b, m, whitesTurn).op.kind == Castle ==>
      CastleRookMove(m.to).Some? && i != CastleRookMove(m.to).value.from && i != CastleRookMove(m.to).value.to
    ensures Strip(MovePiece(b, m, whitesTurn).board.state[i]) == Strip(b.state[i])
  {
    SucceededShape(b, m, whitesTurn);
    var a := Apply(b.state, m, b.state[m.from].value);
    ApplyLeavesOthers(b.state, m, b.state[m.from].value, i);
    assert Strip(a.state[i]) == Strip(MovePiece(b, m, whitesTurn).board.state[i]);
  }

  lemma ApplyLeavesOthers(state: seq<Cell>, m: Move, piece: Piece, i: int)
    requires |state| == 64 && CachesInRange(state) && 0 <= m.from < 64 && 0 <= m.to < 64
    requires state[m.from] == Some(piece) && Apply(state, m, piece).Applied?
    requires 0 <= i < 64 && i != m.from && i != m.to
    requires Apply(state, m, piece).kind == Castle ==>
      CastleRookMove(m.to).Some? && i != CastleRookMove(m.to).value.from && i != CastleRookMove(m.to).value.to
    ensures Apply(state, m, piece).state[i] == state[i]
  {
  }

  // ----- piece count -----

  /** The number of occupied squares. */
  function Count(s: seq<Cell>): (n: nat)
    ensures n <= |s|
    ensures n == 0 <==> forall i :: 0 <= i < |s| ==> s[i].None?
  {
    if s == [] then 0 else (if s[0].Some? then 1 else 0) + Count(s[1..])
  }

  function Occupied(c: Cell): (n: nat)
  {
    if c.Some? then 1 else 0
  }

  lemma {:induction false} CountUpdate(s: seq<Cell>, i: int, v: Cell)
    requires 0 <= i < |s|
    ensures Count(s[i := v]) == Count(s) - Occupied(s[i]) + Occupied(v)
  {
    if i > 0 {
      CountUpdate(s[1..], i - 1, v);
      assert s[i := v][1..] == s[1..][i - 1 := v];
    } else {
      assert s[i := v][1..] == s[1..];
    }
  }

  lemma {:induction false} CountSamePieces(s1: seq<Cell>, s2: seq<Cell>)
    requires SamePieces(s1, s2)
    ensures Count(s1) == Count(s2)
    decreases |s1|
  {
    if s1 != [] {
      assert Strip(s1[0]) == Strip(s2[0]);
      assert SamePieces(s1[1..], s2[1..]) by {
        forall i | 0 <= i < |s1| - 1
          ensures Strip(s1[1..][i]) == Strip(s2[1..][i])
        {
          assert Strip(s1[i + 1]) == Strip(s2[i + 1]);
        }
      }
      CountSamePieces(s1[1..], s2[1..]);
    }
  }

  /**
   * Outside a castle, a successful move between two different squares removes exactly
   * one piece when it is a TAKE and keeps the count otherwise.
   */
  lemma MoveCount(b: Board, m: Move, whitesTurn: bool)
    requires Valid(b) && Succeeded(b, m, whitesTurn) && m.from != m.to
    requires MovePiece(b, m, whitesTurn).op.kind != Castle
    ensures Count(MovePiece(b, m, whitesTurn).board.state) ==
      Count(b.state) - (if MovePiece(b, m, whitesTurn).op.kind == Take then 1 else 0)
  {
    SucceededShape(b, m, whitesTurn);
    var p := b.state[m.from].value;
    var s := b.state;
    var taken := s[m.to].Some?;
    var s1 := if taken then TakePiece(s, m.to) else s;
    var s2 := s1[m.from := None];
    var a := Apply(s, m, p);
    assert a.state == s2[m.to := Some(FirstMoveDone(p))];
    CountUpdate(s, m.to, None);
    CountUpdate(s1, m.from, None);
    CountUpdate(s2, m.to, Some(FirstMoveDone(p)));
    assert s1[m.from] == s[m.from];
    assert s2[m.to].None?;
    CountSamePieces(a.state, MovePiece(b, m, whitesTurn).board.state);
  }

  // ----- the accessors -----

  /**
   * The highlight list and the gate agree: `to` is among the legal moves shown for a
   * square exactly when a move from there to `to` passes the gate on its colour's turn.
   */
  lemma LegalMovesMatchGate(b: Board, from: int, to: int, whitesTurn: bool)
    ensures Accepts(b, Move(from, to), whitesTurn) <==>
      to in GetLegalMoves(b, from) && IsTurnOf(At(b.state, from).value, whitesTurn)
    ensures At(b.state, from).None? ==> GetLegalMoves(b, from) == []
  {
  }

  /**
   * On a freshly regenerated board a King on its cached square never moves two
   * squares, so the castling branch is unreachable: King generation yields adjacent
   * squares only.
   */
  lemma NoCastleAfterRegeneration(state: seq<Cell>, prev: seq<seq<Cell>>, kings: Kings, m: Move, whitesTurn: bool)
    requires RegenReady(state, kings) && Regenerate(state, prev, kings).Fresh?
    requires var nb := Regenerate(state, prev, kings).board;
      Accepts(nb, m, whitesTurn) && (m.from == nb.kings.w || m.from == nb.kings.b)
    ensures var nb := Regenerate(state, prev, kings).board;
      !IsCastle(nb.state[m.from].value, m)
  {
    var nb := Regenerate(state, prev, kings).board;
    var p := nb.state[m.from].value;
    RegenerateMovesAreFresh(state, prev, kings, m.from);
    if p.kind == King {
      KingStepsAdjacent(p, m.from, nb.state, Swept(state, kings).territory, m.to);
    }
  }
}
