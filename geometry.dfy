/** Positions on the plane and the two separation tests of the arbiter.

    The source compares the sum of barrier ranges `m` with a Euclidean distance
    obtained through a square root. Dafny has no square root, so both tests are
    stated on squared distances; the lemmas below show that, for a non-negative `m`,
    they agree with the source's tests on the distance itself. */
module Geometry {

  datatype Point = Point(x: real, y: real)

  /** Square of the Euclidean distance between two trajectory samples. */
  function SqDist(p: Point, q: Point): (r: real)
    ensures r >= 0.0
  {
    var dx := q.x - p.x;
    var dy := q.y - p.y;
    dx * dx + dy * dy
  }

  /** The no-interference test `m < d`, written on squares. */
  predicate Apart(m: real, p: Point, q: Point)
  {
    m * m < SqDist(p, q)
  }

  /** The lookahead test `m / d < 2`, written on squares. */
  predicate AheadClear(m: real, p: Point, q: Point)
  {
    m * m < 4.0 * SqDist(p, q)
  }

  /** The source's `m / d < 2` on a float64 numerator: a zero distance gives
      inf or nan, and neither compares below 2. */
  predicate RatioBelowTwo(m: real, d: real)
  {
    d != 0.0 && m / d < 2.0
  }

  /** Squaring preserves a strict order between non-negative reals. */
  lemma SquareMonotone(a: real, b: real)
    requires 0.0 <= a < b
    ensures a * a < b * b
  {
    var e := b - a;
    assert e > 0.0;
    assert b * b == a * a + 2.0 * a * e + e * e;
    assert a * e >= 0.0;
    assert e * e > 0.0;
  }

  /** For a non-negative barrier sum `m` and the distance `d` (the square root of `sq`),
      `m < d` holds exactly when `m * m < sq`. */
  lemma BelowIffSquareBelow(m: real, d: real, sq: real)
    requires m >= 0.0 && d >= 0.0 && d * d == sq
    ensures m < d <==> m * m < sq
  {
    if m < d {
      SquareMonotone(m, d);
    } else if d < m {
      SquareMonotone(d, m);
    }
  }

  /** For a non-negative barrier sum `m` and the distance `d` (the square root of `sq`),
      the source's ratio test holds exactly when `m * m < 4 * sq`; in particular it
      fails when the distance is zero. */
  lemma RatioIffSquareBelow(m: real, d: real, sq: real)
    requires m >= 0.0 && d >= 0.0 && d * d == sq
    ensures RatioBelowTwo(m, d) <==> m * m < 4.0 * sq
  {
    if d == 0.0 {
      assert sq == 0.0;
      assert m * m >= 0.0;
    } else {
      assert d > 0.0;
      assert (m / d) * d == m;
      assert m / d < 2.0 <==> (m / d) * d < 2.0 * d;
      assert (2.0 * d) * (2.0 * d) == 4.0 * sq;
      BelowIffSquareBelow(m, 2.0 * d, 4.0 * sq);
    }
  }
}
