/**
 * The attacker scan of web/src/arbiter.ts: which opponent pieces reach a king's square.
 *
 * Single-step probes look for pawns (two colour-dependent offsets) and knights (eight
 * offsets); eight rays look for rooks, bishops and queens. The source calls
 * `Utils.toSquare`, which utils.ts does not define; it is read as `toIndex`.
 * `MOVE_CHECKS.ROOK`, `.BISHOP` and `.KING` are declared but never read by the scan.
 */
module Arbiter {
  import opened Options
  import opened Geometry
  import opened Pieces
  import opened MoveGen

  /** `MOVE_CHECKS.PAWN.B`: a pawn attacking a black king stands one rank further from black's side. */
  const PawnChecksBlack: seq<Step> := [Step(1, 1), Step(1, -1)]

  /** `MOVE_CHECKS.PAWN.W` */
  const PawnChecksWhite: seq<Step> := [Step(-1, 1), Step(-1, -1)]

  /** `MOVE_CHECKS.KNIGHT` */
  const KnightChecks: seq<Step> :=
    [Step(-1, -2), Step(-1, 2), Step(-2, -1), Step(-2, 1),
     Step(1, -2), Step(1, 2), Step(2, -1), Step(2, 1)]

  /** `MOVE_CHECKS.QUEEN`: the eight ray directions. */
  const QueenChecks: seq<Step> :=
    [Step(-1, -1), Step(-1, 1), Step(1, -1), Step(1, 1),
     Step(-1, 0), Step(1, 0), Step(0, -1), Step(0, 1)]

  /** The pawn offsets probed for a king of colour `c`: rank +1 for black, rank -1 for white, files -1 and +1. */
  function PawnChecks(c: Color): (steps: seq<Step>)
    ensures |steps| == 2
    ensures forall i :: 0 <= i < |steps| ==>
      steps[i].x == (if c == Black then 1 else -1) && (steps[i].y == 1 || steps[i].y == -1)
    ensures steps[0].y != steps[1].y
  {
    if c == Black then PawnChecksBlack else PawnChecksWhite
  }

  predicate IsSlider(k: Kind)
  {
    k == Rook || k == Bishop || k == Queen
  }

  /** An opponent (of a king of colour `c`) pawn or knight stands on `t`. */
  predicate OpponentStepper(state: seq<Cell>, t: int, c: Color)
  {
    At(state, t).Some? && At(state, t).value.color != c
    && (At(state, t).value.kind == Pawn || At(state, t).value.kind == Knight)
  }

  /** An opponent rook, bishop or queen stands on `t`. */
  predicate OpponentSlider(state: seq<Cell>, t: int, c: Color)
  {
    At(state, t).Some? && At(state, t).value.color != c && IsSlider(At(state, t).value.kind)
  }

  /** A ray walk goes on past `t`: it is empty or holds an opponent slider. */
  predicate Passable(state: seq<Cell>, t: int, c: Color)
  {
    Empty(state, t) || OpponentSlider(state, t, c)
  }

  /** `checkForAttackingPiece` for one offset: the reached square if an opponent pawn or knight holds it. */
  function Probe(x: int, y: int, s: Step, c: Color, state: seq<Cell>): (r: seq<int>)
    ensures |r| <= 1
    ensures forall t :: t in r ==> Target(x, y, s) == Some(t) && OpponentStepper(state, t, c)
    ensures Target(x, y, s).Some? && OpponentStepper(state, Target(x, y, s).value, c) ==> |r| == 1
  {
    match Target(x, y, s)
    case None => []
    case Some(t) => if OpponentStepper(state, t, c) then [t] else []
  }

  /** The probes of an offset list, in list order. */
  function Probes(x: int, y: int, steps: seq<Step>, c: Color, state: seq<Cell>): (r: seq<int>)
    ensures forall t :: t in r ==> 0 <= t < 64 && OpponentStepper(state, t, c)
    ensures |r| <= |steps|
    decreases |steps|
  {
    if steps == [] then []
    else Probe(x, y, steps[0], c, state) + Probes(x, y, steps[1..], c, state)
  }

  /**
   * `walkPath`: from `sq`, step along `d` (recomputing the pair from the square each
   * time); an empty square is passed, an opponent slider is reported and passed, and
   * anything else (a friend, an opponent pawn, knight or king) or the edge ends the walk.
   */
  function Walk(sq: int, d: Step, c: Color, state: seq<Cell>): (r: seq<int>)
    requires 0 <= sq < 64 && UnitDir(d)
    ensures forall t :: t in r ==> 0 <= t < 64 && OpponentSlider(state, t, c)
    decreases Room(sq, d)
  {
    match Next(sq, d)
    case None => []
    case Some(t) =>
      if Empty(state, t) then Walk(t, d, c, state)
      else if OpponentSlider(state, t, c) then [t] + Walk(t, d, c, state)
      else []
  }

  /** The eight walks, in direction order. */
  function Walks(sq: int, dirs: seq<Step>, c: Color, state: seq<Cell>): (r: seq<int>)
    requires 0 <= sq < 64
    requires forall i :: 0 <= i < |dirs| ==> UnitDir(dirs[i])
    ensures forall t :: t in r ==> 0 <= t < 64 && OpponentSlider(state, t, c)
    decreases |dirs|
  {
    if dirs == [] then []
    else Walk(sq, dirs[0], c, state) + Walks(sq, dirs[1..], c, state)
  }

  /** The scan's templates: 2 pawn offsets, 8 knight offsets and 8 distinct unit ray directions. */
  lemma ScanTables()
    ensures forall i :: 0 <= i < |QueenChecks| ==> UnitDir(QueenChecks[i])
    ensures forall c :: |PawnChecks(c)| == 2
    ensures |KnightChecks| == 8 && |QueenChecks| == 8
    ensures forall i, j :: 0 <= i < j < |QueenChecks| ==> QueenChecks[i] != QueenChecks[j]
  {
  }

  /**
   * `kingAttackingPieces(square, state, color)`: the squares of opponent pieces that
   * attack a king of colour `color` on `square`. The walks run only while the square is
   * in [0, 64), the loop guard of `walkPath`.
   */
  function KingAttackingPieces(square: int, state: seq<Cell>, color: Color): (r: seq<int>)
    ensures forall t :: t in r ==> 0 <= t < 64 && At(state, t).Some? && At(state, t).value.color != color
  {
    var xy := ToXY(square);
    var stepped := Probes(xy.0, xy.1, PawnChecks(color) + KnightChecks, color, state);
    ScanTables();
    var slid := if 0 <= square < 64 then Walks(square, QueenChecks, color, state) else [];
    stepped + slid
  }

  // ----- what the scan reports -----

  /** Every square ahead of index j on the ray can be walked past. */
  predicate PassableBefore(state: seq<Cell>, r: seq<int>, j: int, c: Color)
    requires 0 <= j <= |r|
  {
    forall i :: 0 <= i < j ==> Passable(state, r[i], c)
  }

  ghost predicate SeenOnRay(state: seq<Cell>, r: seq<int>, c: Color, t: int)
  {
    exists j :: 0 <= j < |r| && r[j] == t && OpponentSlider(state, t, c) && PassableBefore(state, r, j, c)
  }

  lemma PassableShift(state: seq<Cell>, n: int, rest: seq<int>, j: int, c: Color)
    requires 0 <= j <= |rest|
    ensures PassableBefore(state, [n] + rest, j + 1, c) <==> Passable(state, n, c) && PassableBefore(state, rest, j, c)
  {
    var r := [n] + rest;
    if PassableBefore(state, r, j + 1, c) {
      assert Passable(state, r[0], c);
      forall i | 0 <= i < j
        ensures Passable(state, rest[i], c)
      {
        assert rest[i] == r[i + 1];
      }
    }
    if Passable(state, n, c) && PassableBefore(state, rest, j, c) {
      forall i | 0 <= i < j + 1
        ensures Passable(state, r[i], c)
      {
        if i > 0 {
          assert r[i] == rest[i - 1];
        }
      }
    }
  }

  /**
   * A walk reports exactly the opponent sliders on the geometric ray that have only
   * empty squares and opponent sliders between them and the king: the first friend or
   * opponent non-slider blocks everything beyond it, while a reported slider does not.
   */
  lemma {:induction false} WalkMembership(sq: int, d: Step, c: Color, state: seq<Cell>, t: int)
    requires 0 <= sq < 64 && UnitDir(d)
    ensures t in Walk(sq, d, c, state) <==> SeenOnRay(state, RaySquares(sq, d), c, t)
    decreases Room(sq, d)
  {
    var r := RaySquares(sq, d);
    match Next(sq, d)
    case None =>
      assert r == [];
    case Some(n) =>
      var rest := RaySquares(n, d);
      assert r == [n] + rest;
      if Passable(state, n, c) {
        var tail := Walk(n, d, c, state);
        assert Walk(sq, d, c, state) == (if Empty(state, n) then [] else [n]) + tail;
        WalkMembership(n, d, c, state, t);
        if t == n && OpponentSlider(state, n, c) {
          assert r[0] == n && PassableBefore(state, r, 0, c);
        }
        if t in tail {
          var j :| 0 <= j < |rest| && rest[j] == t && OpponentSlider(state, t, c) && PassableBefore(state, rest, j, c);
          PassableShift(state, n, rest, j, c);
          assert r[j + 1] == t;
        }
        if SeenOnRay(state, r, c, t) {
          var j :| 0 <= j < |r| && r[j] == t && OpponentSlider(state, t, c) && PassableBefore(state, r, j, c);
          if j > 0 {
            PassableShift(state, n, rest, j - 1, c);
            assert rest[j - 1] == t;
          }
        }
      } else {
        assert Walk(sq, d, c, state) == [];
        assert !Passable(state, r[0], c);
      }
  }

  lemma {:induction false} ProbesMembership(x: int, y: int, steps: seq<Step>, c: Color, state: seq<Cell>, t: int)
    ensures t in Probes(x, y, steps, c, state) <==>
      exists i :: 0 <= i < |steps| && Target(x, y, steps[i]) == Some(t) && OpponentStepper(state, t, c)
    decreases |steps|
  {
    if steps != [] {
      var tail := steps[1..];
      ProbesMembership(x, y, tail, c, state, t);
      forall i | 0 <= i < |tail|
        ensures tail[i] == steps[i + 1]
      {
      }
      forall i | 1 <= i < |steps|
        ensures steps[i] == tail[i - 1]
      {
      }
    }
  }

  lemma {:induction false} WalksMembership(sq: int, dirs: seq<Step>, c: Color, state: seq<Cell>, t: int)
    requires 0 <= sq < 64
    requires forall i :: 0 <= i < |dirs| ==> UnitDir(dirs[i])
    ensures t in Walks(sq, dirs, c, state) <==> exists k :: 0 <= k < |dirs| && t in Walk(sq, dirs[k], c, state)
    decreases |dirs|
  {
    if dirs != [] {
      var tail := dirs[1..];
      WalksMembership(sq, tail, c, state, t);
      forall k | 0 <= k < |tail|
        ensures tail[k] == dirs[k + 1]
      {
      }
      forall k | 1 <= k < |dirs|
        ensures dirs[k] == tail[k - 1]
      {
      }
    }
  }

  /**
   * The whole scan: a square is reported iff an opponent pawn or knight stands one
   * pawn-check or knight offset away, or (for a king on the board) an opponent slider
   * is seen along one of the eight rays. Pawns and knights are never reported by a
   * ray, sliders never by a probe.
   */
  lemma KingAttackers(square: int, state: seq<Cell>, color: Color, t: int)
    ensures var xy := ToXY(square); var probes := PawnChecks(color) + KnightChecks;
      t in KingAttackingPieces(square, state, color) <==>
        (exists i :: 0 <= i < |probes| && Target(xy.0, xy.1, probes[i]) == Some(t)
                     && OpponentStepper(state, t, color))
        || (0 <= square < 64 && exists k :: 0 <= k < |QueenChecks|
                                  && SeenOnRay(state, RaySquares(square, QueenChecks[k]), color, t))
  {
    var xy := ToXY(square);
    ProbesMembership(xy.0, xy.1, PawnChecks(color) + KnightChecks, color, state, t);
    if 0 <= square < 64 {
      ScanTables();
      WalksMembership(square, QueenChecks, color, state, t);
      forall k | 0 <= k < |QueenChecks|
        ensures t in Walk(square, QueenChecks[k], color, state)
                <==> SeenOnRay(state, RaySquares(square, QueenChecks[k]), color, t)
      {
        WalkMembership(square, QueenChecks[k], color, state, t);
      }
    }
  }
}
