/**
 * Per-piece move generation of web/src/pieces.ts (`generateLegalMoves`, `walkPath`).
 *
 * Generation is a pure function of the mover, its square, the position and the
 * territory map, returning the freshly computed `legalMoves` and the squares newly
 * pushed to `defendedPieces`. Each source generator starts by resetting
 * `legalMoves = []` but never resets `defendedPieces`; the board therefore stores the
 * fresh legal list and APPENDS the fresh defended list to the piece's old one.
 *
 * Readings chosen where the source is inconsistent:
 * - the generators read `board.currState`, which the board does not have; the board's
 *   array is `state`, and that is what they read here;
 * - the King calls `board.getAttackedSquares(adversary)`, which the board does not
 *   define; it is read as territory membership, as `isUnderAttack` does;
 * - the sliding `walkPath` never moves its (x, y) away from the origin, so it re-tests
 *   the first square forever whenever that square is empty; here the ray advances one
 *   square per iteration, as the arbiter's walk does.
 */
module MoveGen {
  import opened Options
  import opened Geometry
  import opened Pieces

  /** What one generation produces: the new `legalMoves`, and the squares it pushed to `defendedPieces`. */
  datatype Gen = Gen(legal: seq<int>, defended: seq<int>)

  predicate InRange(squares: seq<int>)
  {
    forall t :: t in squares ==> 0 <= t < 64
  }

  predicate Empty(state: seq<Cell>, t: int)
  {
    At(state, t).None?
  }

  predicate Own(state: seq<Cell>, t: int, c: Color)
  {
    At(state, t).Some? && At(state, t).value.color == c
  }

  predicate Enemy(state: seq<Cell>, t: int, c: Color)
  {
    At(state, t).Some? && At(state, t).value.color != c
  }

  /** The colour standing on a square, if any: all that generation reads of other pieces. */
  function ColorAt(state: seq<Cell>, t: int): (c: Option<Color>)
  {
    if At(state, t).Some? then Some(At(state, t).value.color) else None
  }

  /**
   * The square one template step away from (x, y), or None when the step leaves the
   * board. The bounds test is on the pair, before converting back to a square.
   */
  function Target(x: int, y: int, s: Step): (r: Option<int>)
    ensures r.Some? <==> WithinBounds(x + s.x, y + s.y)
    ensures r.Some? ==> 0 <= r.value < 64 && ToXY(r.value) == (x + s.x, y + s.y)
  {
    if WithinBounds(x + s.x, y + s.y) then
      PairRoundTrip(x + s.x, y + s.y);
      Some(ToIndex(x + s.x, y + s.y))
    else
      None
  }

  // ----- single-step pieces: Pawn, Knight, King -----

  /** How one template step is recorded: in `legalMoves`, in `defendedPieces`, or not at all. */
  datatype Verdict = Legal | Defends | Skip

  /**
   * Pawn: a sideways step (y != 0) captures an enemy or defends a friend and does
   * nothing on an empty square; a straight step needs an empty square and passes the
   * test `step.x == 1 || (step.x == 2 && firstMove)` exactly as written.
   */
  function PawnVerdict(p: Piece, s: Step, state: seq<Cell>, t: int): (v: Verdict)
  {
    if s.y != 0 then
      if Empty(state, t) then Skip
      else if Enemy(state, t, p.color) then Legal
      else Defends
    else if Empty(state, t) && (s.x == 1 || (s.x == 2 && p.firstMove)) then Legal
    else Skip
  }

  /** Knight: an empty or enemy square is a move; a friendly one is defended. */
  function KnightVerdict(c: Color, state: seq<Cell>, t: int): (v: Verdict)
  {
    if Empty(state, t) || Enemy(state, t, c) then Legal else Defends
  }

  /** King: like the Knight, but a square the adversary holds in the territory map is skipped. */
  function KingVerdict(c: Color, state: seq<Cell>, terr: seq<set<Color>>, t: int): (v: Verdict)
    requires 0 <= t < |terr|
  {
    if Adversary(c) in terr[t] then Skip else KnightVerdict(c, state, t)
  }

  function StepVerdict(p: Piece, s: Step, t: int, state: seq<Cell>, terr: seq<set<Color>>): (v: Verdict)
    requires 0 <= t < 64 && |terr| == 64
    ensures v == Legal ==> !Own(state, t, p.color)
    ensures v == Defends ==> Own(state, t, p.color)
    ensures p.kind == King && v != Skip ==> Adversary(p.color) !in terr[t]
  {
    match p.kind
    case Pawn => PawnVerdict(p, s, state, t)
    case King => KingVerdict(p.color, state, terr, t)
    case _ => KnightVerdict(p.color, state, t)
  }

  /** The template loop of the single-step generators, in template order. */
  function Scan(p: Piece, x: int, y: int, steps: seq<Step>, state: seq<Cell>,
                terr: seq<set<Color>>): (g: Gen)
    requires |terr| == 64
    ensures InRange(g.legal) && InRange(g.defended)
    ensures forall t :: t in g.legal ==> !Own(state, t, p.color)
    ensures forall t :: t in g.defended ==> Own(state, t, p.color)
    ensures p.kind == King ==>
      forall t :: t in g.legal + g.defended ==> 0 <= t < 64 && Adversary(p.color) !in terr[t]
    decreases |steps|
  {
    if steps == [] then Gen([], [])
    else
      var rest := Scan(p, x, y, steps[1..], state, terr);
      match Target(x, y, steps[0])
      case None => rest
      case Some(t) =>
        match StepVerdict(p, steps[0], t, state, terr)
        case Legal => Gen([t] + rest.legal, rest.defended)
        case Defends => Gen(rest.legal, [t] + rest.defended)
        case Skip => rest
  }

  /** A square is produced by the template loop exactly when some template step reaches it with that verdict. */
  lemma {:induction false} ScanMembership(p: Piece, x: int, y: int, steps: seq<Step>,
                                          state: seq<Cell>, terr: seq<set<Color>>, t: int)
    requires |terr| == 64
    ensures t in Scan(p, x, y, steps, state, terr).legal <==>
      exists i :: 0 <= i < |steps| && Target(x, y, steps[i]) == Some(t)
                  && StepVerdict(p, steps[i], t, state, terr) == Legal
    ensures t in Scan(p, x, y, steps, state, terr).defended <==>
      exists i :: 0 <= i < |steps| && Target(x, y, steps[i]) == Some(t)
                  && StepVerdict(p, steps[i], t, state, terr) == Defends
    decreases |steps|
  {
    if steps != [] {
      var tail := steps[1..];
      ScanMembership(p, x, y, tail, state, terr, t);
      forall i | 0 <= i < |tail|
        ensures tail[i] == steps[i + 1]
      {
      }
      forall i | 1 <= i < |steps|
        ensures steps[i] == tail[i - 1]
      {
      }
    }
  }

  // ----- sliding pieces: Bishop, Rook, Queen -----

  /** Squares left before the edge in direction `d`; each step along `d` uses at least one. */
  function Room(sq: int, d: Step): (n: nat)
    requires 0 <= sq < 64
  {
    IndexRoundTrip(sq);
    var xy := ToXY(sq);
    (if d.x > 0 then 7 - xy.0 else if d.x < 0 then xy.0 else 0)
    + (if d.y > 0 then 7 - xy.1 else if d.y < 0 then xy.1 else 0)
  }

  /** The square one step from `sq` along `d`, if it is on the board; moving along a unit direction uses up room. */
  function Next(sq: int, d: Step): (r: Option<int>)
    requires 0 <= sq < 64
    ensures r == Target(ToXY(sq).0, ToXY(sq).1, d)
    ensures UnitDir(d) && r.Some? ==> Room(r.value, d) < Room(sq, d)
  {
    IndexRoundTrip(sq);
    Target(ToXY(sq).0, ToXY(sq).1, d)
  }

  /** The geometric ray: every square beyond `sq` along `d` up to the edge, nearest first. */
  function RaySquares(sq: int, d: Step): (r: seq<int>)
    requires 0 <= sq < 64 && UnitDir(d)
    ensures InRange(r)
    ensures forall t :: t in r ==> Room(t, d) < Room(sq, d)
    decreases Room(sq, d)
  {
    match Next(sq, d)
    case None => []
    case Some(t) => [t] + RaySquares(t, d)
  }

  /**
   * One `walkPath`, advancing a square per iteration: empty squares are moves and the
   * walk goes on; the first occupied square ends it, as a move (enemy) or as a
   * defended square (friend).
   */
  function Ray(c: Color, sq: int, d: Step, state: seq<Cell>): (g: Gen)
    requires 0 <= sq < 64 && UnitDir(d)
    ensures InRange(g.legal) && InRange(g.defended)
    ensures forall t :: t in g.legal ==> !Own(state, t, c)
    ensures forall t :: t in g.defended ==> Own(state, t, c)
    ensures |g.defended| <= 1
    decreases Room(sq, d)
  {
    match Next(sq, d)
    case None => Gen([], [])
    case Some(t) =>
      if Empty(state, t) then
        var rest := Ray(c, t, d, state);
        Gen([t] + rest.legal, rest.defended)
      else if Enemy(state, t, c) then Gen([t], [])
      else Gen([], [t])
  }

  /** Every square of `r` before index `j` is empty. */
  predicate ClearBefore(state: seq<Cell>, r: seq<int>, j: int)
    requires 0 <= j <= |r|
  {
    forall i :: 0 <= i < j ==> Empty(state, r[i])
  }

  /** Prepending a square to a ray: clear up to j + 1 means that square is empty and the rest is clear up to j. */
  lemma ClearShift(state: seq<Cell>, n: int, rest: seq<int>, j: int)
    requires 0 <= j <= |rest|
    ensures ClearBefore(state, [n] + rest, j + 1) <==> Empty(state, n) && ClearBefore(state, rest, j)
  {
    var r := [n] + rest;
    if ClearBefore(state, r, j + 1) {
      assert Empty(state, r[0]);
      forall i | 0 <= i < j
        ensures Empty(state, rest[i])
      {
        assert rest[i] == r[i + 1];
      }
    }
    if Empty(state, n) && ClearBefore(state, rest, j) {
      forall i | 0 <= i < j + 1
        ensures Empty(state, r[i])
      {
        if i > 0 {
          assert r[i] == rest[i - 1];
        }
      }
    }
  }

  /** A square is a ray move: it lies on the ray, all nearer ray squares are empty, and no friend stands on it. */
  ghost predicate OnRayMove(state: seq<Cell>, r: seq<int>, c: Color, t: int)
  {
    exists j :: 0 <= j < |r| && r[j] == t && ClearBefore(state, r, j) && !Own(state, t, c)
  }

  /** A square is defended along a ray: it lies on the ray, all nearer ray squares are empty, and a friend stands on it. */
  ghost predicate OnRayGuard(state: seq<Cell>, r: seq<int>, c: Color, t: int)
  {
    exists j :: 0 <= j < |r| && r[j] == t && ClearBefore(state, r, j) && Own(state, t, c)
  }

  /**
   * The walk against the geometric ray: a square is a move exactly when it lies on the
   * ray, every nearer ray square is empty, and it is not held by a friend.
   */
  lemma {:induction false} RayLegalMembership(c: Color, sq: int, d: Step, state: seq<Cell>, t: int)
    requires 0 <= sq < 64 && UnitDir(d)
    ensures t in Ray(c, sq, d, state).legal <==> OnRayMove(state, RaySquares(sq, d), c, t)
    decreases Room(sq, d)
  {
    var r := RaySquares(sq, d);
    match Next(sq, d)
    case None =>
      assert r == [];
    case Some(n) =>
      var rest := RaySquares(n, d);
      assert r == [n] + rest;
      if Empty(state, n) {
        var tail := Ray(c, n, d, state);
        assert Ray(c, sq, d, state).legal == [n] + tail.legal;
        RayLegalMembership(c, n, d, state, t);
        if t == n {
          assert r[0] == n && ClearBefore(state, r, 0);
        } else if t in tail.legal {
          var j :| 0 <= j < |rest| && rest[j] == t && ClearBefore(state, rest, j) && !Own(state, t, c);
          ClearShift(state, n, rest, j);
          assert r[j + 1] == t;
        }
        if OnRayMove(state, r, c, t) && t != n {
          var j :| 0 <= j < |r| && r[j] == t && ClearBefore(state, r, j) && !Own(state, t, c);
          assert j > 0;
          ClearShift(state, n, rest, j - 1);
          assert rest[j - 1] == t;
        }
      } else {
        assert Ray(c, sq, d, state).legal == if Enemy(state, n, c) then [n] else [];
        if OnRayMove(state, r, c, t) {
          var j :| 0 <= j < |r| && r[j] == t && ClearBefore(state, r, j) && !Own(state, t, c);
          assert r[0] == n;
          assert j == 0;
        }
        if Enemy(state, n, c) && t == n {
          assert r[0] == n && ClearBefore(state, r, 0);
        }
      }
  }

  /**
   * The walk against the geometric ray: a square is defended exactly when it lies on
   * the ray, every nearer ray square is empty, and a friend stands on it.
   */
  lemma {:induction false} RayDefendedMembership(c: Color, sq: int, d: Step, state: seq<Cell>, t: int)
    requires 0 <= sq < 64 && UnitDir(d)
    ensures t in Ray(c, sq, d, state).defended <==> OnRayGuard(state, RaySquares(sq, d), c, t)
    decreases Room(sq, d)
  {
    var r := RaySquares(sq, d);
    match Next(sq, d)
    case None =>
      assert r == [];
    case Some(n) =>
      var rest := RaySquares(n, d);
      assert r == [n] + rest;
      if Empty(state, n) {
        var tail := Ray(c, n, d, state);
        assert Ray(c, sq, d, state).defended == tail.defended;
        RayDefendedMembership(c, n, d, state, t);
        if t in tail.defended {
          var j :| 0 <= j < |rest| && rest[j] == t && ClearBefore(state, rest, j) && Own(state, t, c);
          ClearShift(state, n, rest, j);
          assert r[j + 1] == t;
        }
        if OnRayGuard(state, r, c, t) {
          var j :| 0 <= j < |r| && r[j] == t && ClearBefore(state, r, j) && Own(state, t, c);
          assert j > 0;
          ClearShift(state, n, rest, j - 1);
          assert rest[j - 1] == t;
        }
      } else {
        assert Ray(c, sq, d, state).defended == if Enemy(state, n, c) then [] else [n];
        if OnRayGuard(state, r, c, t) {
          var j :| 0 <= j < |r| && r[j] == t && ClearBefore(state, r, j) && Own(state, t, c);
          assert r[0] == n;
          assert j == 0;
        }
        if !Enemy(state, n, c) && t == n {
          assert r[0] == n && ClearBefore(state, r, 0);
        }
      }
  }

  /** All walks of a direction list, concatenated in list order. */
  function Slide(c: Color, sq: int, dirs: seq<Step>, state: seq<Cell>): (g: Gen)
    requires 0 <= sq < 64
    requires forall i :: 0 <= i < |dirs| ==> UnitDir(dirs[i])
    ensures InRange(g.legal) && InRange(g.defended)
    ensures forall t :: t in g.legal ==> !Own(state, t, c)
    ensures forall t :: t in g.defended ==> Own(state, t, c)
    decreases |dirs|
  {
    if dirs == [] then Gen([], [])
    else
      var first := Ray(c, sq, dirs[0], state);
      var rest := Slide(c, sq, dirs[1..], state);
      Gen(first.legal + rest.legal, first.defended + rest.defended)
  }

  /** Sliding along two direction lists in turn is sliding along their concatenation. */
  lemma {:induction false} SlideAppend(c: Color, sq: int, d1: seq<Step>, d2: seq<Step>, state: seq<Cell>)
    requires 0 <= sq < 64
    requires forall i :: 0 <= i < |d1| ==> UnitDir(d1[i])
    requires forall i :: 0 <= i < |d2| ==> UnitDir(d2[i])
    ensures Slide(c, sq, d1 + d2, state).legal == Slide(c, sq, d1, state).legal + Slide(c, sq, d2, state).legal
    ensures Slide(c, sq, d1 + d2, state).defended
            == Slide(c, sq, d1, state).defended + Slide(c, sq, d2, state).defended
    decreases |d1|
  {
    if d1 == [] {
      assert d1 + d2 == d2;
    } else {
      var all := d1 + d2;
      var t1 := d1[1..];
      assert forall i :: 0 <= i < |t1| ==> t1[i] == d1[i + 1];
      assert all[0] == d1[0];
      assert all[1..] == t1 + d2;
      SlideAppend(c, sq, t1, d2, state);
      var first := Ray(c, sq, d1[0], state);
      var mid := Slide(c, sq, t1 + d2, state);
      var a := Slide(c, sq, t1, state);
      var b := Slide(c, sq, d2, state);
      assert Slide(c, sq, all, state) == Gen(first.legal + mid.legal, first.defended + mid.defended);
      assert Slide(c, sq, d1, state) == Gen(first.legal + a.legal, first.defended + a.defended);
      assert mid.legal == a.legal + b.legal;
      assert mid.defended == a.defended + b.defended;
      ConcatAssoc(first.legal, a.legal, b.legal);
      ConcatAssoc(first.defended, a.defended, b.defended);
    }
  }

  lemma ConcatAssoc(a: seq<int>, b: seq<int>, c: seq<int>)
    ensures a + (b + c) == (a + b) + c
  {
  }

  /** A square comes out of a slide exactly when it comes out of the walk of one of its directions. */
  lemma {:induction false} SlideMembership(c: Color, sq: int, dirs: seq<Step>, state: seq<Cell>, t: int)
    requires 0 <= sq < 64
    requires forall i :: 0 <= i < |dirs| ==> UnitDir(dirs[i])
    ensures t in Slide(c, sq, dirs, state).legal <==>
      exists k :: 0 <= k < |dirs| && t in Ray(c, sq, dirs[k], state).legal
    ensures t in Slide(c, sq, dirs, state).defended <==>
      exists k :: 0 <= k < |dirs| && t in Ray(c, sq, dirs[k], state).defended
    decreases |dirs|
  {
    if dirs != [] {
      var tail := dirs[1..];
      SlideMembership(c, sq, tail, state, t);
      forall k | 0 <= k < |tail|
        ensures tail[k] == dirs[k + 1]
      {
      }
      forall k | 1 <= k < |dirs|
        ensures dirs[k] == tail[k - 1]
      {
      }
    }
  }

  // ----- dispatch -----

  /** The direction template of a sliding kind (empty for the others). */
  function SlideDirs(k: Kind): (dirs: seq<Step>)
    ensures forall i :: 0 <= i < |dirs| ==> UnitDir(dirs[i])
  {
    SlidingTemplates();
    match k
    case Bishop => BishopSteps
    case Rook => RookSteps
    case Queen => QueenSteps
    case _ => []
  }

  /**
   * `generateLegalMoves(curr, board)`: the fresh legal list and the newly defended
   * squares of piece `p` standing on `sq`, against `state` and (for the King) the
   * territory map.
   */
  function Generate(p: Piece, sq: int, state: seq<Cell>, terr: seq<set<Color>>): (g: Gen)
    requires 0 <= sq < 64 && |terr| == 64
    ensures InRange(g.legal) && InRange(g.defended)
    ensures forall t :: t in g.legal ==> !Own(state, t, p.color)
    ensures forall t :: t in g.defended ==> Own(state, t, p.color)
    ensures p.kind == King ==>
      forall t :: t in g.legal + g.defended ==> 0 <= t < 64 && Adversary(p.color) !in terr[t]
  {
    var xy := ToXY(sq);
    match p.kind
    case Pawn => Scan(p, xy.0, xy.1, PawnSteps(p.color), state, terr)
    case Knight => Scan(p, xy.0, xy.1, KnightSteps, state, terr)
    case King => Scan(p, xy.0, xy.1, KingSteps, state, terr)
    case _ => Slide(p.color, sq, SlideDirs(p.kind), state)
  }

  // ----- what each generator produces -----

  /** Two template steps that reach the same square from the same origin are the same step. */
  lemma TargetInjective(x: int, y: int, s1: Step, s2: Step, t: int)
    requires Target(x, y, s1) == Some(t) && Target(x, y, s2) == Some(t)
    ensures s1 == s2
  {
  }

  /**
   * Knight: a square is a move iff some knight offset from the origin stays on the
   * board, reaches it, and it is empty or enemy-held; it is defended iff the same but
   * a friend holds it.
   */
  lemma KnightMoves(p: Piece, sq: int, state: seq<Cell>, terr: seq<set<Color>>, t: int)
    requires p.kind == Knight && 0 <= sq < 64 && |terr| == 64
    ensures var xy := ToXY(sq);
      t in Generate(p, sq, state, terr).legal <==>
        exists i :: 0 <= i < |KnightSteps| && Target(xy.0, xy.1, KnightSteps[i]) == Some(t)
                    && !Own(state, t, p.color)
    ensures var xy := ToXY(sq);
      t in Generate(p, sq, state, terr).defended <==>
        exists i :: 0 <= i < |KnightSteps| && Target(xy.0, xy.1, KnightSteps[i]) == Some(t)
                    && Own(state, t, p.color)
  {
    var xy := ToXY(sq);
    ScanMembership(p, xy.0, xy.1, KnightSteps, state, terr, t);
  }

  /** The pawn's rule for one template step, as the generator applies it. */
  predicate PawnStepAllows(p: Piece, s: Step, state: seq<Cell>, t: int)
  {
    (s.y != 0 && Enemy(state, t, p.color))
    || (s.y == 0 && Empty(state, t) && (s.x == 1 || (s.x == 2 && p.firstMove)))
  }

  /**
   * Pawn: a square is a move iff some pawn template reaches it and allows it, and it
   * is defended iff a diagonal template reaches it and a friend holds it.
   */
  lemma PawnMoves(p: Piece, sq: int, state: seq<Cell>, terr: seq<set<Color>>, t: int)
    requires p.kind == Pawn && 0 <= sq < 64 && |terr| == 64
    ensures var xy := ToXY(sq); var steps := PawnSteps(p.color);
      t in Generate(p, sq, state, terr).legal <==>
        exists i :: 0 <= i < |steps| && Target(xy.0, xy.1, steps[i]) == Some(t)
                    && PawnStepAllows(p, steps[i], state, t)
    ensures var xy := ToXY(sq); var steps := PawnSteps(p.color);
      t in Generate(p, sq, state, terr).defended <==>
        exists i :: 0 <= i < |steps| && Target(xy.0, xy.1, steps[i]) == Some(t)
                    && steps[i].y != 0 && Own(state, t, p.color)
  {
    var xy := ToXY(sq);
    ScanMembership(p, xy.0, xy.1, PawnSteps(p.color), state, terr, t);
  }

  /**
   * Pawn diagonals: the square a diagonal template reaches is a move exactly when an
   * enemy stands there and defended exactly when a friend does; an empty diagonal
   * yields nothing.
   */
  lemma PawnDiagonal(p: Piece, sq: int, state: seq<Cell>, terr: seq<set<Color>>, i: int, t: int)
    requires p.kind == Pawn && 0 <= sq < 64 && |terr| == 64
    requires 0 <= i < 2
    requires Target(ToXY(sq).0, ToXY(sq).1, PawnSteps(p.color)[i]) == Some(t)
    ensures t in Generate(p, sq, state, terr).legal <==> Enemy(state, t, p.color)
    ensures t in Generate(p, sq, state, terr).defended <==> Own(state, t, p.color)
    ensures Empty(state, t) ==>
      t !in Generate(p, sq, state, terr).legal && t !in Generate(p, sq, state, terr).defended
  {
    var xy := ToXY(sq);
    var steps := PawnSteps(p.color);
    PawnMoves(p, sq, state, terr, t);
    forall k | 0 <= k < |steps| && Target(xy.0, xy.1, steps[k]) == Some(t)
      ensures k == i
    {
      TargetInjective(xy.0, xy.1, steps[k], steps[i], t);
    }
  }

  /**
   * Pawn advances: the square a straight template reaches is a move exactly when it is
   * empty and the template passes `step.x == 1 || (step.x == 2 && firstMove)`; it is
   * never defended. The square in between is not consulted.
   */
  lemma PawnForward(p: Piece, sq: int, state: seq<Cell>, terr: seq<set<Color>>, i: int, t: int)
    requires p.kind == Pawn && 0 <= sq < 64 && |terr| == 64
    requires 2 <= i < 4
    requires Target(ToXY(sq).0, ToXY(sq).1, PawnSteps(p.color)[i]) == Some(t)
    ensures var s := PawnSteps(p.color)[i];
      t in Generate(p, sq, state, terr).legal <==>
        Empty(state, t) && (s.x == 1 || (s.x == 2 && p.firstMove))
    ensures t !in Generate(p, sq, state, terr).defended
  {
    var xy := ToXY(sq);
    var steps := PawnSteps(p.color);
    PawnMoves(p, sq, state, terr, t);
    forall k | 0 <= k < |steps| && Target(xy.0, xy.1, steps[k]) == Some(t)
      ensures k == i
    {
      TargetInjective(xy.0, xy.1, steps[k], steps[i], t);
    }
  }

  /**
   * As written, white's advance templates have x = -1 and -2 and never pass the
   * forward test, so every legal move of a white pawn is a capture.
   */
  lemma WhitePawnsOnlyCapture(p: Piece, sq: int, state: seq<Cell>, terr: seq<set<Color>>, t: int)
    requires p.kind == Pawn && p.color == White && 0 <= sq < 64 && |terr| == 64
    requires t in Generate(p, sq, state, terr).legal
    ensures Enemy(state, t, White)
  {
    PawnMoves(p, sq, state, terr, t);
  }

  /**
   * As written, a black pawn on its first move may advance two squares whenever the
   * destination is empty, whatever stands on the square it passes over.
   */
  lemma BlackTwoStepIgnoresBlocker(p: Piece, sq: int, state: seq<Cell>, terr: seq<set<Color>>)
    requires p.kind == Pawn && p.color == Black && p.firstMove
    requires 0 <= sq < 48 && |terr| == 64
    requires Empty(state, sq + 16)
    ensures sq + 16 in Generate(p, sq, state, terr).legal
  {
    var xy := ToXY(sq);
    IndexRoundTrip(sq);
    var two := PawnSteps(Black)[3];
    assert two == Step(2, 0);
    assert Target(xy.0, xy.1, two) == Some(sq + 16);
    assert PawnStepAllows(p, two, state, sq + 16);
    PawnMoves(p, sq, state, terr, sq + 16);
  }

  /**
   * King: a square is a move iff a one-square step reaches it, the adversary does not
   * hold it in the territory map, and no friend stands on it; defended iff the same
   * but a friend stands on it.
   */
  lemma KingMoves(p: Piece, sq: int, state: seq<Cell>, terr: seq<set<Color>>, t: int)
    requires p.kind == King && 0 <= sq < 64 && |terr| == 64
    ensures var xy := ToXY(sq);
      t in Generate(p, sq, state, terr).legal <==>
        exists i :: 0 <= i < |KingSteps| && Target(xy.0, xy.1, KingSteps[i]) == Some(t)
                    && Adversary(p.color) !in terr[t] && !Own(state, t, p.color)
    ensures var xy := ToXY(sq);
      t in Generate(p, sq, state, terr).defended <==>
        exists i :: 0 <= i < |KingSteps| && Target(xy.0, xy.1, KingSteps[i]) == Some(t)
                    && Adversary(p.color) !in terr[t] && Own(state, t, p.color)
  {
    var xy := ToXY(sq);
    ScanMembership(p, xy.0, xy.1, KingSteps, state, terr, t);
  }

  /**
   * Every legal King square is a different square at most one row and one column away,
   * so its index differs by 1, 7, 8 or 9 and never by the 2 that the board reads as
   * castling; the adversary does not hold it and no friend stands on it.
   */
  lemma KingStepsAdjacent(p: Piece, sq: int, state: seq<Cell>, terr: seq<set<Color>>, t: int)
    requires p.kind == King && 0 <= sq < 64 && |terr| == 64
    requires t in Generate(p, sq, state, terr).legal
    ensures 0 <= t < 64 && t != sq
    ensures -1 <= ToXY(t).0 - ToXY(sq).0 <= 1 && -1 <= ToXY(t).1 - ToXY(sq).1 <= 1
    ensures t - sq in {-9, -8, -7, -1, 1, 7, 8, 9}
    ensures t - sq != 2 && sq - t != 2
    ensures Adversary(p.color) !in terr[t] && !Own(state, t, p.color)
  {
    KingMoves(p, sq, state, terr, t);
    var xy := ToXY(sq);
    var i :| 0 <= i < |KingSteps| && Target(xy.0, xy.1, KingSteps[i]) == Some(t)
             && Adversary(p.color) !in terr[t] && !Own(state, t, p.color);
    KingStepIsUnit(i);
    OneStepAway(sq, KingSteps[i], t);
  }

  lemma KingStepIsUnit(i: int)
    requires 0 <= i < |KingSteps|
    ensures UnitDir(KingSteps[i])
  {
  }

  /** A unit step from `sq` that stays on the board reaches a different square one row and one column away at most. */
  lemma OneStepAway(sq: int, d: Step, t: int)
    requires 0 <= sq < 64 && UnitDir(d)
    requires Target(ToXY(sq).0, ToXY(sq).1, d) == Some(t)
    ensures 0 <= t < 64 && t != sq
    ensures -1 <= ToXY(t).0 - ToXY(sq).0 <= 1 && -1 <= ToXY(t).1 - ToXY(sq).1 <= 1
    ensures t - sq in {-9, -8, -7, -1, 1, 7, 8, 9}
  {
    var xy := ToXY(sq);
    IndexRoundTrip(sq);
    assert t == ToIndex(xy.0 + d.x, xy.1 + d.y);
  }

  /**
   * Bishop, Rook and Queen: a square is a move iff it is a ray move along one of the
   * kind's directions, and defended iff it is the friend ending one of those rays.
   */
  lemma SliderMoves(p: Piece, sq: int, state: seq<Cell>, terr: seq<set<Color>>, t: int)
    requires p.kind in {Bishop, Rook, Queen} && 0 <= sq < 64 && |terr| == 64
    ensures var dirs := SlideDirs(p.kind);
      t in Generate(p, sq, state, terr).legal <==>
        exists k :: 0 <= k < |dirs| && OnRayMove(state, RaySquares(sq, dirs[k]), p.color, t)
    ensures var dirs := SlideDirs(p.kind);
      t in Generate(p, sq, state, terr).defended <==>
        exists k :: 0 <= k < |dirs| && OnRayGuard(state, RaySquares(sq, dirs[k]), p.color, t)
  {
    var dirs := SlideDirs(p.kind);
    SlideMembership(p.color, sq, dirs, state, t);
    forall k | 0 <= k < |dirs|
      ensures t in Ray(p.color, sq, dirs[k], state).legal
              <==> OnRayMove(state, RaySquares(sq, dirs[k]), p.color, t)
      ensures t in Ray(p.color, sq, dirs[k], state).defended
              <==> OnRayGuard(state, RaySquares(sq, dirs[k]), p.color, t)
    {
      RayLegalMembership(p.color, sq, dirs[k], state, t);
      RayDefendedMembership(p.color, sq, dirs[k], state, t);
    }
  }

  /** The Queen generates exactly the Bishop's lists followed by the Rook's, from the same square. */
  lemma QueenIsBishopThenRook(p: Piece, sq: int, state: seq<Cell>, terr: seq<set<Color>>)
    requires p.kind == Queen && 0 <= sq < 64 && |terr| == 64
    ensures var q := Generate(p, sq, state, terr);
            var b := Generate(p.(kind := Bishop), sq, state, terr);
            var r := Generate(p.(kind := Rook), sq, state, terr);
            q.legal == b.legal + r.legal && q.defended == b.defended + r.defended
  {
    SlidingTemplates();
    SlideAppend(p.color, sq, BishopSteps, RookSteps, state);
  }

  // ----- generation reads only the colours on the board -----

  lemma {:induction false} ScanSameColors(p: Piece, q: Piece, x: int, y: int, steps: seq<Step>,
                                          s1: seq<Cell>, s2: seq<Cell>, t1: seq<set<Color>>, t2: seq<set<Color>>)
    requires |t1| == 64 && |t2| == 64 && (p.kind == King ==> t1 == t2)
    requires p.kind == q.kind && p.color == q.color && p.firstMove == q.firstMove
    requires forall t :: 0 <= t < 64 ==> ColorAt(s1, t) == ColorAt(s2, t)
    ensures Scan(p, x, y, steps, s1, t1) == Scan(q, x, y, steps, s2, t2)
    decreases |steps|
  {
    if steps != [] {
      ScanSameColors(p, q, x, y, steps[1..], s1, s2, t1, t2);
      match Target(x, y, steps[0])
      case None =>
      case Some(t) =>
        assert ColorAt(s1, t) == ColorAt(s2, t);
        assert StepVerdict(p, steps[0], t, s1, t1) == StepVerdict(q, steps[0], t, s2, t2);
    }
  }

  lemma {:induction false} RaySameColors(c: Color, sq: int, d: Step, s1: seq<Cell>, s2: seq<Cell>)
    requires 0 <= sq < 64 && UnitDir(d)
    requires forall t :: 0 <= t < 64 ==> ColorAt(s1, t) == ColorAt(s2, t)
    ensures Ray(c, sq, d, s1) == Ray(c, sq, d, s2)
    decreases Room(sq, d)
  {
    match Next(sq, d)
    case None =>
    case Some(t) =>
      assert ColorAt(s1, t) == ColorAt(s2, t);
      RaySameColors(c, t, d, s1, s2);
  }

  lemma {:induction false} SlideSameColors(c: Color, sq: int, dirs: seq<Step>, s1: seq<Cell>, s2: seq<Cell>)
    requires 0 <= sq < 64
    requires forall i :: 0 <= i < |dirs| ==> UnitDir(dirs[i])
    requires forall t :: 0 <= t < 64 ==> ColorAt(s1, t) == ColorAt(s2, t)
    ensures Slide(c, sq, dirs, s1) == Slide(c, sq, dirs, s2)
    decreases |dirs|
  {
    if dirs != [] {
      RaySameColors(c, sq, dirs[0], s1, s2);
      SlideSameColors(c, sq, dirs[1..], s1, s2);
    }
  }

  /**
   * Generation starts from an empty legal list and reads nothing but the mover's kind,
   * colour and first-move flag, its square, which colour stands on each square and,
   * for a King only, the territory map: two positions with the same colours give the
   * same result, whatever the pieces' ids or cached lists, and only a King's result
   * depends on the territory.
   */
  lemma GenerationReadsOnlyColors(p: Piece, q: Piece, sq: int, s1: seq<Cell>, s2: seq<Cell>,
                                  t1: seq<set<Color>>, t2: seq<set<Color>>)
    requires 0 <= sq < 64 && |t1| == 64 && |t2| == 64
    requires p.kind == King ==> t1 == t2
    requires p.kind == q.kind && p.color == q.color && p.firstMove == q.firstMove
    requires forall t :: 0 <= t < 64 ==> ColorAt(s1, t) == ColorAt(s2, t)
    ensures Generate(p, sq, s1, t1) == Generate(q, sq, s2, t2)
  {
    var xy := ToXY(sq);
    match p.kind
    case Pawn => ScanSameColors(p, q, xy.0, xy.1, PawnSteps(p.color), s1, s2, t1, t2);
    case Knight => ScanSameColors(p, q, xy.0, xy.1, KnightSteps, s1, s2, t1, t2);
    case King => ScanSameColors(p, q, xy.0, xy.1, KingSteps, s1, s2, t1, t2);
    case _ => SlideSameColors(p.color, sq, SlideDirs(p.kind), s1, s2);
  }
}
