/**
 * Scalar helpers of the animation: the viewport diagonal, the canvas padding
 * derived from it, `randomBetween` and `Math.round`.
 *
 * `Math.random()` is not modelled as a generator: every call site receives a
 * draw of type `Unit`, a real in [0, 1). `Math.sqrt` is not modelled either:
 * the diagonal is passed in, together with the promise `IsDiagonal` that it is
 * the non-negative square root of dx² + dy².
 */
module Geometry {

  /** One result of `Math.random()`: a real in [0, 1). */
  type Unit = u: real | 0.0 <= u < 1.0

  function Abs(v: real): real {
    if v < 0.0 then -v else v
  }

  /** `diag` is what `diagonalLength(dx, dy)`, i.e. sqrt(dx² + dy²), returns. */
  predicate IsDiagonal(dx: real, dy: real, diag: real) {
    0.0 <= diag && diag * diag == dx * dx + dy * dy
  }

  lemma MulStrictlyMonotone(a: real, b: real, c: real)
    requires 0.0 < c && a < b
    ensures a * c < b * c
  {
  }

  lemma MulMonotone(a: real, b: real, c: real)
    requires a <= b && 0.0 < c
    ensures a * c <= b * c
  {
  }

  lemma MulNonNegative(a: real, b: real)
    requires 0.0 <= a && 0.0 <= b
    ensures 0.0 <= a * b
  {
  }

  /** A draw scales the width of a non-empty interval into [0, width). */
  lemma ScaledDraw(u: Unit, lo: real, hi: real)
    requires lo < hi
    ensures 0.0 <= u * (hi - lo) < hi - lo
  {
    MulStrictlyMonotone(u, 1.0, hi - lo);
    MulNonNegative(u, hi - lo);
  }

  /** A draw scales any width `w` to a value between 0 (included) and `w` (excluded). */
  lemma ScaledWidth(u: Unit, w: real)
    ensures 0.0 < w ==> 0.0 <= u * w < w
    ensures w < 0.0 ==> w < u * w <= 0.0
  {
    var p := u * w;
    if 0.0 < w {
      MulStrictlyMonotone(u, 1.0, w);
      MulNonNegative(u, w);
      assert 0.0 <= p < w;
    } else if w < 0.0 {
      MulStrictlyMonotone(u, 1.0, -w);
      MulNonNegative(u, -w);
      assert u * -w == -p;
      assert w < p <= 0.0;
    }
  }

  lemma DivStrictlyMonotone(a: real, b: real, w: real)
    requires 0.0 < w && a < b
    ensures a / w < b / w
  {
    var qa, qb := a / w, b / w;
    assert qa * w == a && qb * w == b;
    if qb < qa {
      MulStrictlyMonotone(qb, qa, w);
    }
  }

  /** A part `a` of a positive whole `w` is a fraction in [0, 1] of it, and in [0, 1) when it is smaller. */
  lemma DivFraction(a: real, w: real)
    requires 0.0 <= a <= w && 0.0 < w
    ensures 0.0 <= a / w <= 1.0
    ensures a < w ==> a / w < 1.0
  {
    assert w / w == 1.0;
    assert 0.0 / w == 0.0;
    if a < w {
      DivStrictlyMonotone(a, w, w);
    }
    if 0.0 < a {
      DivStrictlyMonotone(0.0, a, w);
    }
  }

  lemma SquareStrictlyMonotone(a: real, b: real)
    requires 0.0 <= a < b
    ensures a * a < b * b
  {
    MulStrictlyMonotone(a, b, b);
    MulNonNegative(a, b - a);
    assert a * (b - a) == a * b - a * a;
  }

  /** The square-root promise pins the diagonal down: two diagonals of one vector agree. */
  lemma DiagonalUnique(dx: real, dy: real, d1: real, d2: real)
    requires IsDiagonal(dx, dy, d1) && IsDiagonal(dx, dy, d2)
    ensures d1 == d2
  {
    if d1 < d2 {
      SquareStrictlyMonotone(d1, d2);
    } else if d2 < d1 {
      SquareStrictlyMonotone(d2, d1);
    }
  }

  /** The diagonal is at least as long as either side and at most their sum. */
  lemma DiagonalBounds(dx: real, dy: real, diag: real)
    requires IsDiagonal(dx, dy, diag)
    ensures Abs(dx) <= diag && Abs(dy) <= diag
    ensures diag <= Abs(dx) + Abs(dy)
  {
    assert Abs(dx) * Abs(dx) == dx * dx;
    assert Abs(dy) * Abs(dy) == dy * dy;
    if diag < Abs(dx) {
      SquareStrictlyMonotone(diag, Abs(dx));
    }
    if diag < Abs(dy) {
      SquareStrictlyMonotone(diag, Abs(dy));
    }
    var sum := Abs(dx) + Abs(dy);
    assert sum * sum == dx * dx + dy * dy + 2.0 * Abs(dx) * Abs(dy);
    assert 0.0 <= Abs(dx) * Abs(dy);
    if sum < diag {
      SquareStrictlyMonotone(sum, diag);
    }
  }

  /**
   * `calculateCanvasPadding`: the fraction `maxVertexLength` of the diagonal of
   * the window (`innerWidth` by `innerHeight`).
   */
  function CanvasPadding(maxVertexLength: real, innerWidth: real, innerHeight: real, diag: real): (padding: real)
    requires IsDiagonal(innerWidth, innerHeight, diag)
    ensures 0.0 <= maxVertexLength ==> 0.0 <= padding
    ensures 0.0 <= maxVertexLength ==>
      maxVertexLength * Abs(innerWidth) <= padding && maxVertexLength * Abs(innerHeight) <= padding
    ensures 0.0 <= maxVertexLength ==> padding <= maxVertexLength * (Abs(innerWidth) + Abs(innerHeight))
    ensures 0.0 <= maxVertexLength ==>
      IsDiagonal(maxVertexLength * innerWidth, maxVertexLength * innerHeight, padding)
  {
    DiagonalBounds(innerWidth, innerHeight, diag);
    PaddingBounds(maxVertexLength, innerWidth, innerHeight, diag);
    ScaledDiagonal(maxVertexLength, innerWidth, innerHeight, diag);
    maxVertexLength * diag
  }

  /** Scaling both sides by a non-negative `k` scales the diagonal by `k`. */
  lemma ScaledDiagonal(k: real, dx: real, dy: real, diag: real)
    requires IsDiagonal(dx, dy, diag)
    ensures 0.0 <= k ==> IsDiagonal(k * dx, k * dy, k * diag)
  {
    if 0.0 <= k {
      MulNonNegative(k, diag);
      assert (k * diag) * (k * diag) == (k * k) * (diag * diag);
      assert (k * dx) * (k * dx) + (k * dy) * (k * dy) == (k * k) * (dx * dx + dy * dy);
    }
  }

  lemma PaddingBounds(k: real, w: real, h: real, diag: real)
    requires Abs(w) <= diag && Abs(h) <= diag && diag <= Abs(w) + Abs(h)
    ensures 0.0 <= k ==> 0.0 <= k * diag
    ensures 0.0 <= k ==> k * Abs(w) <= k * diag && k * Abs(h) <= k * diag
    ensures 0.0 <= k ==> k * diag <= k * (Abs(w) + Abs(h))
  {
    if 0.0 <= k {
      MulNonNegative(k, diag);
      MulNonNegative(k, diag - Abs(w));
      MulNonNegative(k, diag - Abs(h));
      MulNonNegative(k, Abs(w) + Abs(h) - diag);
    }
  }

  /**
   * `v` lies in what `RandomBetween(_, bottom, top)` can return: [bottom, top)
   * for bottom < top, (top, bottom] for top < bottom, bottom itself otherwise.
   */
  predicate Drawn(v: real, bottom: real, top: real) {
    if bottom < top then bottom <= v < top
    else if bottom == top then v == bottom
    else top < v <= bottom
  }

  /**
   * `randomBetween(bottom, top)` for the draw `u`: the draw scaled to the
   * width of the interval and moved to its bottom.
   * The source does not check the order of its bounds, so neither does the model.
   */
  function RandomBetween(u: Unit, bottom: real, top: real): (r: real)
    ensures Drawn(r, bottom, top)
    ensures u == 0.0 ==> r == bottom
  {
    RandomBetweenBounds(u, bottom, top);
    u * (top - bottom) + bottom
  }

  lemma RandomBetweenBounds(u: Unit, bottom: real, top: real)
    ensures bottom < top ==> bottom <= u * (top - bottom) + bottom < top
    ensures top < bottom ==> top < u * (top - bottom) + bottom <= bottom
  {
    if bottom < top {
      ScaledDraw(u, bottom, top);
    } else if top < bottom {
      ScaledDraw(u, top, bottom);
      assert u * (bottom - top) == -(u * (top - bottom));
    }
  }

  /** A larger draw gives a larger value: the map from draws to [bottom, top) is order-preserving. */
  lemma RandomBetweenMonotone(u1: Unit, u2: Unit, bottom: real, top: real)
    requires u1 < u2 && bottom < top
    ensures RandomBetween(u1, bottom, top) < RandomBetween(u2, bottom, top)
  {
    var w := top - bottom;
    MulStrictlyMonotone(u1, u2, w);
    assert RandomBetween(u1, bottom, top) == u1 * w + bottom;
    assert RandomBetween(u2, bottom, top) == u2 * w + bottom;
  }

  /** Every value of [bottom, top) is produced by exactly one draw. */
  lemma RandomBetweenOnto(v: real, bottom: real, top: real) returns (u: Unit)
    requires bottom <= v < top
    ensures RandomBetween(u, bottom, top) == v
    ensures forall w: Unit :: RandomBetween(w, bottom, top) == v ==> w == u
  {
    var width := top - bottom;
    var q := (v - bottom) / width;
    DivFraction(v - bottom, width);
    assert q * width == v - bottom;
    u := q;
    assert RandomBetween(u, bottom, top) == q * width + bottom;
    forall w: Unit | RandomBetween(w, bottom, top) == v
      ensures w == u
    {
      if w < u {
        RandomBetweenMonotone(w, u, bottom, top);
      } else if u < w {
        RandomBetweenMonotone(u, w, bottom, top);
      }
    }
  }

  /**
   * `Math.round(v)`: the integer nearest to `v`, halves rounded up (towards
   * positive infinity), computed as floor(v + 0.5).
   */
  function JsRound(v: real): (n: int)
    ensures v - 0.5 < n as real <= v + 0.5
  {
    (v + 0.5).Floor
  }

  /** Only one integer satisfies the contract of `JsRound`, so it characterises `Math.round` fully. */
  lemma JsRoundUnique(v: real, n: int)
    requires v - 0.5 < n as real <= v + 0.5
    ensures n == JsRound(v)
  {
  }
}
