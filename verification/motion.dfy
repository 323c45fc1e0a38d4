/**
 * The motion step: `handleOverflow`, `deviateCourse`, `moveDot`, and the
 * physics tick that replaces every dot by its moved version.
 *
 * `Math.cos` and `Math.sin` are parameters; each dot's `Math.random()` draw
 * comes from `draw(i)`, and the draws of tick `t` from `draws(t)`.
 */
module Motion {
  import opened Geometry
  import opened Field

  /** The `{canvasWidth, canvasHeight}` argument of `moveDot`. */
  datatype Canvas = Canvas(width: real, height: real)

  /**
   * `handleOverflow`: a position below the bottom boundary jumps to the top
   * boundary, one above the top boundary jumps to the bottom boundary, any
   * other passes through. The bottom test is made first.
   */
  function HandleOverflow(position: real, bottomBoundary: real, topBoundary: real): (r: real)
    ensures position < bottomBoundary ==> r == topBoundary
    ensures bottomBoundary <= position && topBoundary < position ==> r == bottomBoundary
    ensures bottomBoundary <= position <= topBoundary ==> r == position
    ensures bottomBoundary <= topBoundary ==> bottomBoundary <= r <= topBoundary
  {
    if position < bottomBoundary then topBoundary
    else if position > topBoundary then bottomBoundary
    else position
  }

  /** Wrapping a wrapped position again changes nothing, whatever the order of the boundaries. */
  lemma HandleOverflowIdempotent(position: real, bottomBoundary: real, topBoundary: real)
    ensures var once := HandleOverflow(position, bottomBoundary, topBoundary);
      HandleOverflow(once, bottomBoundary, topBoundary) == once
  {
  }

  /** Over boundaries 0 and 100: -1 wraps to 100, 101 to 0, 50 stays. */
  lemma HandleOverflowExamples()
    ensures HandleOverflow(-1.0, 0.0, 100.0) == 100.0
    ensures HandleOverflow(101.0, 0.0, 100.0) == 0.0
    ensures HandleOverflow(50.0, 0.0, 100.0) == 50.0
  {
  }

  /**
   * `deviateCourse`: the heading `d` plus `u * deviations - deviations / 2`,
   * a perturbation of at most half of `deviations` either way.
   */
  function DeviateCourse(d: real, deviations: real, u: Unit): (r: real)
    ensures Abs(r - d) <= Abs(deviations) / 2.0
    ensures 0.0 < deviations ==> d - deviations / 2.0 <= r < d + deviations / 2.0
  {
    DeviationBounds(d, deviations, u);
    d + (u * deviations - deviations / 2.0)
  }

  /**
   * The middle draw 0.5 keeps the heading; the draw 0 turns it by minus half
   * of `deviations` (so a random source stubbed to 0 does not keep headings).
   */
  lemma DeviateCourseAtDraws(d: real, deviations: real)
    ensures DeviateCourse(d, deviations, 0.5) == d
    ensures DeviateCourse(d, deviations, 0.0) == d - deviations / 2.0
  {
    ScaledWidth(0.5, deviations);
  }

  lemma DeviationBounds(d: real, deviations: real, u: Unit)
    ensures var r := d + (u * deviations - deviations / 2.0);
      && Abs(r - d) <= Abs(deviations) / 2.0
      && (0.0 < deviations ==> d - deviations / 2.0 <= r < d + deviations / 2.0)
  {
    ScaledWidth(u, deviations);
  }

  /** The new heading is a `randomBetween` over the window of width `deviations` centred on `d`. */
  lemma DeviateCourseIsRandomBetween(d: real, deviations: real, u: Unit)
    ensures DeviateCourse(d, deviations, u) == RandomBetween(u, d - deviations / 2.0, d + deviations / 2.0)
  {
    assert (d + deviations / 2.0) - (d - deviations / 2.0) == deviations;
  }

  /**
   * `moveDot`: move by `s` along heading `d`, wrap each coordinate into the
   * canvas widened by half the padding (a coordinate past one edge jumps to
   * the opposite edge), perturb the heading, and carry the speed and the
   * radius over.
   */
  function MoveDot(dot: Dot, canvas: Canvas, padding: real, cos: real -> real, sin: real -> real,
                   deviations: real, u: Unit): (moved: Dot)
    ensures moved.r == dot.r && moved.s == dot.s
    ensures moved.d == DeviateCourse(dot.d, deviations, u)
    ensures 0.0 <= canvas.width + padding ==> -padding / 2.0 <= moved.x <= canvas.width + padding / 2.0
    ensures 0.0 <= canvas.height + padding ==> -padding / 2.0 <= moved.y <= canvas.height + padding / 2.0
    ensures -padding / 2.0 <= dot.x + cos(dot.d) * dot.s <= canvas.width + padding / 2.0 ==>
      moved.x == dot.x + cos(dot.d) * dot.s
    ensures -padding / 2.0 <= dot.y + sin(dot.d) * dot.s <= canvas.height + padding / 2.0 ==>
      moved.y == dot.y + sin(dot.d) * dot.s
    ensures dot.x + cos(dot.d) * dot.s < -padding / 2.0 ==> moved.x == canvas.width + padding / 2.0
    ensures -padding / 2.0 <= dot.x + cos(dot.d) * dot.s && canvas.width + padding / 2.0 < dot.x + cos(dot.d) * dot.s ==>
      moved.x == -padding / 2.0
    ensures dot.y + sin(dot.d) * dot.s < -padding / 2.0 ==> moved.y == canvas.height + padding / 2.0
    ensures -padding / 2.0 <= dot.y + sin(dot.d) * dot.s && canvas.height + padding / 2.0 < dot.y + sin(dot.d) * dot.s ==>
      moved.y == -padding / 2.0
  {
    var maxDistance := padding / 2.0;
    Dot(HandleOverflow(dot.x + cos(dot.d) * dot.s, -maxDistance, canvas.width + maxDistance),
        HandleOverflow(dot.y + sin(dot.d) * dot.s, -maxDistance, canvas.height + maxDistance),
        dot.r,
        dot.s,
        DeviateCourse(dot.d, deviations, u))
  }

  /** Every coordinate lies in the canvas widened by half the padding. */
  predicate InBounds(dots: seq<Dot>, canvas: Canvas, padding: real) {
    forall i :: 0 <= i < |dots| ==>
      && -padding / 2.0 <= dots[i].x <= canvas.width + padding / 2.0
      && -padding / 2.0 <= dots[i].y <= canvas.height + padding / 2.0
  }

  /** `dots` and `other` have the same length and agree on every radius and speed. */
  predicate SameRadiiAndSpeeds(dots: seq<Dot>, other: seq<Dot>) {
    && |dots| == |other|
    && forall i :: 0 <= i < |dots| ==> dots[i].r == other[i].r && dots[i].s == other[i].s
  }

  /**
   * One physics tick: the whole collection is replaced by the moved dots,
   * dot `i` moving with draw `draw(i)`.
   */
  function Tick(dots: seq<Dot>, canvas: Canvas, padding: real, cos: real -> real, sin: real -> real,
                deviations: real, draw: nat -> Unit): (next: seq<Dot>)
    ensures |next| == |dots|
    ensures forall i :: 0 <= i < |dots| ==> next[i] == MoveDot(dots[i], canvas, padding, cos, sin, deviations, draw(i))
    ensures SameRadiiAndSpeeds(next, dots)
    ensures 0.0 <= padding && 0.0 <= canvas.width && 0.0 <= canvas.height ==> InBounds(next, canvas, padding)
  {
    seq(|dots|, i requires 0 <= i < |dots| => MoveDot(dots[i], canvas, padding, cos, sin, deviations, draw(i)))
  }

  /**
   * `n` ticks in a row. Tick `t` reads the canvas size `canvases(t)` and the
   * padding `paddings(t)` afresh, since a resize of the window may change
   * both between ticks, and uses the draws `draws(t)`. The population keeps
   * its size, every dot keeps its radius and its speed, and after the last
   * tick every dot lies in that tick's canvas widened by half its padding.
   */
  function Ticks(dots: seq<Dot>, n: nat, canvases: nat -> Canvas, paddings: nat -> real,
                 cos: real -> real, sin: real -> real,
                 deviations: real, draws: nat -> nat -> Unit): (later: seq<Dot>)
    ensures SameRadiiAndSpeeds(later, dots)
    ensures 0 < n && 0.0 <= paddings(n - 1) && 0.0 <= canvases(n - 1).width && 0.0 <= canvases(n - 1).height ==>
      InBounds(later, canvases(n - 1), paddings(n - 1))
  {
    if n == 0 then dots
    else Tick(Ticks(dots, n - 1, canvases, paddings, cos, sin, deviations, draws),
              canvases(n - 1), paddings(n - 1), cos, sin, deviations, draws(n - 1))
  }

  /**
   * A radius and a speed drawn from their configured ranges when the field
   * was created are still in those ranges after any number of ticks, however
   * the canvas is resized in between.
   */
  lemma SeededRangesSurviveTicks(dots: seq<Dot>, dotSize: Range, dotSpeed: Range, n: nat,
                                 canvases: nat -> Canvas, paddings: nat -> real,
                                 cos: real -> real, sin: real -> real,
                                 deviations: real, draws: nat -> nat -> Unit)
    requires forall i :: 0 <= i < |dots| ==>
      Drawn(dots[i].r, dotSize.min, dotSize.max) && Drawn(dots[i].s, dotSpeed.min, dotSpeed.max)
    ensures var later := Ticks(dots, n, canvases, paddings, cos, sin, deviations, draws);
      forall i :: 0 <= i < |later| ==>
        Drawn(later[i].r, dotSize.min, dotSize.max) && Drawn(later[i].s, dotSpeed.min, dotSpeed.max)
  {
  }

  /**
   * Dots are seeded in the canvas widened by the whole padding but wrapped
   * at half of it: a dot seeded at x = -0.8 * padding that does not move
   * horizontally jumps to the far edge on the first tick.
   */
  lemma SeededDotMayJumpOnFirstTick(dot: Dot, canvas: Canvas, padding: real, cos: real -> real,
                                    sin: real -> real, deviations: real, u: Unit)
    requires 0.0 < padding && dot.x == -0.8 * padding && cos(dot.d) == 0.0
    ensures MoveDot(dot, canvas, padding, cos, sin, deviations, u).x == canvas.width + padding / 2.0
  {
  }
}
