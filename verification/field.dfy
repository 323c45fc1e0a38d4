/**
 * The dot field: the state of one dot, the configuration of the animation,
 * and the creation of the initial population (`createRandomDot`, `createDots`).
 */
module Field {
  import opened Wrappers
  import opened Geometry

  /**
   * One dot: position `x`, `y`, radius `r`, speed `s` (pixels per tick) and
   * heading `d` (radians).
   */
  datatype Dot = Dot(x: real, y: real, r: real, s: real, d: real)

  /** A configured `{min, max}` range. */
  datatype Range = Range(min: real, max: real)

  /** The options object, one field per recognised option. */
  datatype Options = Options(
    pixelsPerDot: real,
    dotColor: string,
    dotSize: Range,
    dotSpeed: Range,
    dotCourseDeviations: real,
    vertexColor: string,
    maxVertexLength: real)

  /** The options used when the caller passes none. */
  const DefaultOptions := Options(13500.0, "#7f7f7f", Range(2.0, 6.0), Range(3.0, 3.1), 0.05, "#000000", 0.2)

  /** `Math.PI`. */
  const Pi: real := 3.141592653589793

  /** `Array(n)` accepts lengths 0 .. 2^32 - 1 and throws a RangeError otherwise. */
  const MaxArrayLength: int := 0xFFFF_FFFF

  datatype DotsError = InvalidArrayLength

  /**
   * The dot count of `createDots`: the window area over `pixelsPerDot`,
   * rounded down, used as an array length.
   * A zero divisor gives Infinity or NaN and a negative quotient a negative
   * length; `Array` throws on all of them, and on lengths of 2^32 or more.
   */
  function NumberOfDots(innerWidth: real, innerHeight: real, pixelsPerDot: real): (r: Result<nat, DotsError>)
    ensures r.Success? <==>
      pixelsPerDot != 0.0 && 0.0 <= innerWidth * innerHeight / pixelsPerDot < (MaxArrayLength + 1) as real
    ensures r.Success? ==> r.value <= MaxArrayLength
    ensures r.Success? && 0.0 < pixelsPerDot ==>
      r.value as real * pixelsPerDot <= innerWidth * innerHeight < (r.value + 1) as real * pixelsPerDot
  {
    if pixelsPerDot == 0.0 then Failure(InvalidArrayLength)
    else
      var q := innerWidth * innerHeight / pixelsPerDot;
      var n := q.Floor;
      if 0 <= n <= MaxArrayLength then
        CountBounds(q, n, innerWidth * innerHeight, pixelsPerDot);
        Success(n)
      else Failure(InvalidArrayLength)
  }

  lemma CountBounds(q: real, n: int, area: real, pixelsPerDot: real)
    requires pixelsPerDot != 0.0 && q == area / pixelsPerDot
    requires n as real <= q < (n + 1) as real
    ensures 0.0 < pixelsPerDot ==> n as real * pixelsPerDot <= area < (n + 1) as real * pixelsPerDot
  {
    if 0.0 < pixelsPerDot {
      assert q * pixelsPerDot == area;
      MulMonotone(n as real, q, pixelsPerDot);
      MulStrictlyMonotone(q, (n + 1) as real, pixelsPerDot);
    }
  }

  /** The default density on a 1350 by 1000 window gives 100 dots; on 1000 by 500 it gives 37. */
  lemma NumberOfDotsExamples()
    ensures NumberOfDots(1350.0, 1000.0, DefaultOptions.pixelsPerDot) == Success(100)
    ensures NumberOfDots(1000.0, 500.0, DefaultOptions.pixelsPerDot) == Success(37)
    ensures NumberOfDots(0.0, 800.0, DefaultOptions.pixelsPerDot) == Success(0)
    ensures NumberOfDots(1350.0, 1000.0, 0.0).Failure?
  {
    assert 1000.0 * 500.0 / 13500.0 == 37.0 + 1.0 / 27.0;
  }

  /** The five `Math.random()` draws `createRandomDot` makes, in call order. */
  datatype DotDraw = DotDraw(x: Unit, y: Unit, r: Unit, s: Unit, d: Unit)

  /** What holds of every dot `createRandomDot` makes. */
  predicate Seeded(dot: Dot, canvasWidth: real, canvasHeight: real, padding: real, dotSize: Range, dotSpeed: Range) {
    && dot.x == dot.x.Floor as real
    && dot.y == dot.y.Floor as real
    && (-padding <= canvasWidth + padding ==> -padding - 0.5 < dot.x <= canvasWidth + padding + 0.5)
    && (-padding <= canvasHeight + padding ==> -padding - 0.5 < dot.y <= canvasHeight + padding + 0.5)
    && Drawn(dot.r, dotSize.min, dotSize.max)
    && Drawn(dot.s, dotSpeed.min, dotSpeed.max)
    && 0.0 <= dot.d < 2.0 * Pi
  }

  /**
   * `createRandomDot`: a rounded position in the canvas widened by `padding`
   * on every side, a radius and a speed drawn from their ranges, a heading in
   * [0, 2π).
   */
  function CreateRandomDot(draw: DotDraw, canvasWidth: real, canvasHeight: real, padding: real,
                           dotSize: Range, dotSpeed: Range): (dot: Dot)
    ensures Seeded(dot, canvasWidth, canvasHeight, padding, dotSize, dotSpeed)
    ensures dot.x == JsRound(RandomBetween(draw.x, -padding, canvasWidth + padding)) as real
    ensures dot.y == JsRound(RandomBetween(draw.y, -padding, canvasHeight + padding)) as real
    ensures dot.r == RandomBetween(draw.r, dotSize.min, dotSize.max)
    ensures dot.s == RandomBetween(draw.s, dotSpeed.min, dotSpeed.max)
    ensures dot.d == RandomBetween(draw.d, 0.0, 2.0 * Pi)
  {
    var x := RandomBetween(draw.x, -padding, canvasWidth + padding);
    var y := RandomBetween(draw.y, -padding, canvasHeight + padding);
    ScaledDraw(draw.d, 0.0, 2.0 * Pi);
    Dot(JsRound(x) as real, JsRound(y) as real,
        RandomBetween(draw.r, dotSize.min, dotSize.max),
        RandomBetween(draw.s, dotSpeed.min, dotSpeed.max),
        draw.d * 2.0 * Pi)
  }

  /**
   * `createDots`: as many dots as `NumberOfDots` says for the window, dot `i`
   * made from its own draws `draw(i)`. The padding comes from the window's
   * diagonal, the positions from the canvas size.
   */
  function CreateDots(options: Options, innerWidth: real, innerHeight: real, diag: real,
                      canvasWidth: real, canvasHeight: real, draw: nat -> DotDraw): (r: Result<seq<Dot>, DotsError>)
    requires IsDiagonal(innerWidth, innerHeight, diag)
    ensures r.Success? <==> NumberOfDots(innerWidth, innerHeight, options.pixelsPerDot).Success?
    ensures r.Success? ==> |r.value| == NumberOfDots(innerWidth, innerHeight, options.pixelsPerDot).value
    ensures r.Success? ==>
      var padding := CanvasPadding(options.maxVertexLength, innerWidth, innerHeight, diag);
      forall i :: 0 <= i < |r.value| ==>
        && r.value[i] == CreateRandomDot(draw(i), canvasWidth, canvasHeight, padding, options.dotSize, options.dotSpeed)
        && Seeded(r.value[i], canvasWidth, canvasHeight, padding, options.dotSize, options.dotSpeed)
  {
    match NumberOfDots(innerWidth, innerHeight, options.pixelsPerDot)
    case Failure(e) => Failure(e)
    case Success(n) =>
      var padding := CanvasPadding(options.maxVertexLength, innerWidth, innerHeight, diag);
      Success(seq(n, i requires 0 <= i => CreateRandomDot(draw(i), canvasWidth, canvasHeight, padding, options.dotSize, options.dotSpeed)))
  }

  /**
   * With the default options, every dot `createRandomDot` makes has a radius
   * in [2, 6) and a speed in [3, 3.1).
   */
  lemma DefaultDotRanges(draw: DotDraw, canvasWidth: real, canvasHeight: real, padding: real)
    ensures var dot := CreateRandomDot(draw, canvasWidth, canvasHeight, padding,
                                       DefaultOptions.dotSize, DefaultOptions.dotSpeed);
      2.0 <= dot.r < 6.0 && 3.0 <= dot.s < 3.1
  {
  }
}
