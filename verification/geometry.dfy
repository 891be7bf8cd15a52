/**
 * Square geometry of the 64-square board (web/src/utils.ts, duplicated as web/src/Utils.ts).
 *
 * A square is a rank-major index: rank x = square / 8 counts from black's back rank,
 * file y = square % 8. Both source files compute the same conversions; the only
 * difference is that Utils.ts takes the bounds test's pair as one tuple.
 */
module Geometry {

  /** JavaScript's `a % 8`: truncating, so the remainder takes the sign of the dividend. */
  function JsRem8(a: int): (r: int)
    ensures a >= 0 ==> 0 <= r < 8
    ensures a < 0 ==> -8 < r <= 0
    ensures (a - r) % 8 == 0
  {
    if a >= 0 then a % 8 else -((-a) % 8)
  }

  /** `toXY`: `[Math.floor(s / 8), s % 8]`. Dafny's `/` by a positive divisor is the floor. */
  function ToXY(s: int): (xy: (int, int))
  {
    (s / 8, JsRem8(s))
  }

  /** `toIndex(x, y)`: `x * 8 + y`, with no check of its own. */
  function ToIndex(x: int, y: int): (s: int)
  {
    x * 8 + y
  }

  /** `xyWithingBounds(x, y)`: the bounds test on the rank/file pair. */
  predicate WithinBounds(x: int, y: int)
  {
    (-1 < x && x < 8) && (-1 < y && y < 8)
  }

  /** The tuple form of the same test, `xyWithingBounds([x, y])` in Utils.ts. */
  predicate WithinBoundsPair(xy: (int, int))
  {
    WithinBounds(xy.0, xy.1)
  }

  // ----- utils.ts -----

  /** Converting a square to its pair and back returns the square. */
  lemma IndexRoundTrip(s: int)
    requires 0 <= s < 64
    ensures WithinBounds(ToXY(s).0, ToXY(s).1)
    ensures ToIndex(ToXY(s).0, ToXY(s).1) == s
  {
  }

  /** An in-bounds pair maps to a square in [0, 64) that converts back to the same pair. */
  lemma PairRoundTrip(x: int, y: int)
    requires WithinBounds(x, y)
    ensures 0 <= ToIndex(x, y) < 64
    ensures ToXY(ToIndex(x, y)) == (x, y)
  {
    var s := ToIndex(x, y);
    assert s == 8 * x + y;
    assert s / 8 == x by {
      assert 8 * x <= s < 8 * x + 8;
    }
  }

  /** The bounds test is exactly "both coordinates in 0..7". */
  lemma BoundsMeaning(x: int, y: int)
    ensures WithinBounds(x, y) <==> (0 <= x <= 7 && 0 <= y <= 7)
  {
  }

  /**
   * The pair test is the right test: a pair is in bounds exactly when its index is a
   * square AND that square converts back to the same pair. The index range on its own
   * is not enough (see `IndexRangeMissesWrap`).
   */
  lemma BoundsByRoundTrip(x: int, y: int)
    ensures WithinBounds(x, y) <==> (0 <= ToIndex(x, y) < 64 && ToXY(ToIndex(x, y)) == (x, y))
  {
    if WithinBounds(x, y) {
      PairRoundTrip(x, y);
    }
    if 0 <= ToIndex(x, y) < 64 && ToXY(ToIndex(x, y)) == (x, y) {
      IndexRoundTrip(ToIndex(x, y));
    }
  }

  /**
   * Out-of-bounds pairs can still alias a real square: (0, 8) gives square 8, and a
   * step two files left of the a-file on rank r + 1 lands on the g-file of rank r.
   * So rejecting a step by its index range would let horizontal wrap-around through.
   */
  lemma IndexRangeMissesWrap(r: int)
    requires 0 <= r < 7
    ensures !WithinBounds(0, 8) && 0 <= ToIndex(0, 8) < 64
    ensures !WithinBounds(r + 1, -2) && 0 <= ToIndex(r + 1, -2) < 64
    ensures ToXY(ToIndex(r + 1, -2)) == (r, 6)
  {
    PairRoundTrip(r, 6);
  }

  // ----- Utils.ts -----

  /** The tuple test holds iff both components are in 0..7. */
  lemma TupleBoundsMeaning(xy: (int, int))
    ensures WithinBoundsPair(xy) <==> (0 <= xy.0 <= 7 && 0 <= xy.1 <= 7)
  {
  }

  /** An in-bounds tuple maps into [0, 64) and converts back to itself. */
  lemma TupleRoundTrip(xy: (int, int))
    requires WithinBoundsPair(xy)
    ensures 0 <= ToIndex(xy.0, xy.1) < 64
    ensures ToXY(ToIndex(xy.0, xy.1)) == xy
  {
    PairRoundTrip(xy.0, xy.1);
  }

  /** Every square's tuple passes the tuple test and converts back to the square. */
  lemma SquareTupleRoundTrip(s: int)
    requires 0 <= s < 64
    ensures WithinBoundsPair(ToXY(s))
    ensures ToIndex(ToXY(s).0, ToXY(s).1) == s
  {
    IndexRoundTrip(s);
  }

  /**
   * For a negative argument the truncating `%` breaks the round trip: square -1 maps to
   * the pair (-1, -1) and back to -9. The board never converts negative squares.
   */
  lemma NegativeSquareBreaksRoundTrip()
    ensures ToXY(-1) == (-1, -1)
    ensures ToIndex(ToXY(-1).0, ToXY(-1).1) == -9
  {
  }
}
