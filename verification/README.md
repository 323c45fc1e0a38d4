# Vertices animation: a verified model of the simulation core

`vertices-animation.js` draws a "constellation": dots drift across a canvas,
and every two dots that are close enough are joined by a line whose opacity
fades with their distance. This project models the simulation behind that
picture as pure Dafny functions over values, and proves what they promise:

- `geometry.dfy` (module `Geometry`): the viewport diagonal, the canvas
  padding derived from it (`calculateCanvasPadding`), `randomBetween` and
  `Math.round`.
- `field.dfy` (module `Field`): the dot record `{x, y, r, s, d}`, the options
  and their defaults, the dot count of `createDots`, `createRandomDot` and
  `createDots`.
- `motion.dfy` (module `Motion`): `handleOverflow`, `deviateCourse`, `moveDot`,
  and the physics tick that replaces the whole collection by its moved dots.
- `proximity.dfy` (module `Proximity`): `dotPairs`, the distance filter of
  `drawVertices`, and the opacity computed in `drawVertex`. The drawing calls
  are replaced by the list of edges they would draw.
- `color.dfy` (module `Color`): the channel parsing of `hexToRGBA`, including
  `parseInt(_, 16)` and `String.prototype.slice`.
- `wrappers.dfy` (module `Wrappers`): `Option` and `Result`.

Numbers are Dafny `real`s. The browser's oracles become parameters:

- every `Math.random()` call is a draw of type `Geometry.Unit`, a real in [0, 1);
- `Math.cos` and `Math.sin` are function parameters `cos`, `sin`;
- `Math.sqrt` of dx² + dy² is either a value `diag` with
  `IsDiagonal(dx, dy, diag)` (non-negative, and its square is dx² + dy²) or a
  function parameter `diagonal(dx, dy)`.

`distanceOfDots` is `Proximity.DistanceOfDots`, the `diagonal` of the two
positions' difference. The window size (`innerWidth`, `innerHeight`) and the
canvas size are explicit parameters.

Error paths of the code are modelled, not excluded:

- `Array(n)` throws a RangeError unless n is an integer in 0 .. 2^32 - 1.
  This covers a zero `pixelsPerDot` (Infinity or NaN) and a negative area.
  `NumberOfDots` and `CreateDots` return `Result`.
- The opacity with a zero maximum distance is 0/0, which is NaN. `EdgeOpacity`
  returns `None` for it.
- `parseInt` of a slice without leading hex digits is NaN, modelled as `None`.

## Behaviour worth knowing

These facts about the code are stated and proved in the model.

- `createRandomDot` seeds positions anywhere in the canvas widened by the
  whole padding (vertices-animation.js:28-29), but `moveDot` wraps them at
  half the padding (vertices-animation.js:60). A dot seeded in the outer half
  of the margin may therefore jump to the far edge on its first tick, when
  its first step leaves it beyond half the padding
  (`Motion.SeededDotMayJumpOnFirstTick`).
- `randomBetween` does not check the order of its bounds, so
  `RandomBetween` states its range for all three orders.
- The draw 0 does not keep a heading: `deviateCourse` then turns it by minus
  half of `dotCourseDeviations`. The draw 0.5 is the one that keeps it
  (`Motion.DeviateCourseAtDraws`).
- `createRandomDot` rounds the seeded positions with `Math.round`, so they
  are integers. They lie within half a pixel of the padded canvas, not
  exactly inside it.
- The code comment at vertices-animation.js:97 gives the opacity range as
  0.5 to 1. The formula gives values from 0 to 0.5, and `EdgeOpacity` proves
  that range.

## Model

| member | source | states |
|---|---|---|
| `Geometry.DiagonalBounds` | vertices-animation.js:13-16 | the diagonal is at least each side's length and at most their sum |
| `Geometry.DiagonalUnique` | vertices-animation.js:13-16 | the square-root promise determines the diagonal uniquely |
| `Geometry.CanvasPadding` | vertices-animation.js:18-19 | for a non-negative `maxVertexLength`, the padding is the diagonal of the window scaled by `maxVertexLength` (its square is the sum of the squares of the scaled sides, and it is non-negative). So it is at least that fraction of each window side and at most that fraction of their sum |
| `Geometry.ScaledDiagonal` | vertices-animation.js:13-19 | scaling both sides by a non-negative factor scales the diagonal by the same factor |
| `Geometry.RandomBetween` | vertices-animation.js:21-22 | the result is `Drawn` from the bounds: in [bottom, top) when bottom < top, bottom when they are equal, in (top, bottom] when top < bottom. It is bottom for the draw 0 |
| `Geometry.RandomBetweenMonotone` | vertices-animation.js:21-22 | for bottom < top, a larger draw gives a strictly larger value |
| `Geometry.RandomBetweenOnto` | vertices-animation.js:21-22 | every value of [bottom, top) comes from exactly one draw |
| `Geometry.JsRound` | vertices-animation.js:28-29 | `Math.round` gives an integer n with v - 0.5 < n <= v + 0.5 |
| `Geometry.JsRoundUnique` | vertices-animation.js:28-29 | only one integer meets that contract, so it characterises `Math.round` |
| `Field.NumberOfDots` | vertices-animation.js:38-39 | the count exists iff `pixelsPerDot` is non-zero and area / `pixelsPerDot` is in [0, 2^32). It never exceeds 2^32 - 1. For a positive divisor it is the floor: n·P <= W·H < (n+1)·P |
| `Field.NumberOfDotsExamples` | vertices-animation.js:38-39 | with the default density, 1350×1000 gives 100 dots, 1000×500 gives 37 and an empty window gives 0. A zero density fails |
| `Field.DefaultDotRanges` | vertices-animation.js:3-11 | with the default options every created dot has a radius in [2, 6) and a speed in [3, 3.1) |
| `Field.CreateRandomDot` | vertices-animation.js:24-34 | x and y are the rounded `randomBetween` of their own draws over the canvas widened by the padding. They are integers within half a pixel of that widened canvas. r, s and d are `randomBetween` of their own draws over the size range, the speed range and [0, 2π), so each lies in its range |
| `Field.CreateDots` | vertices-animation.js:36-43 | succeeds exactly when the dot count does, and then has that many dots. Dot i comes from its own draws and satisfies `Seeded` |
| `Motion.HandleOverflow` | vertices-animation.js:45-53 | below the bottom gives the top, above the top gives the bottom, otherwise the position. With bottom <= top the result lies in [bottom, top] |
| `Motion.HandleOverflowIdempotent` | vertices-animation.js:45-53 | for every order of the boundaries, wrapping an already wrapped position changes nothing |
| `Motion.HandleOverflowExamples` | vertices-animation.js:45-53 | over 0..100: -1 goes to 100, 101 goes to 0, 50 stays |
| `Motion.DeviateCourse` | vertices-animation.js:55-56 | the new heading is within half of `deviations` of the old one, and in [d - dev/2, d + dev/2) for a positive `deviations` |
| `Motion.DeviateCourseIsRandomBetween` | vertices-animation.js:55-56 | deviating is `randomBetween` over the window of width `deviations` centred on the heading |
| `Motion.DeviateCourseAtDraws` | vertices-animation.js:55-56 | the draw 0.5 keeps the heading; the draw 0 lowers it by half of `deviations` |
| `Motion.MoveDot` | vertices-animation.js:58-75 | radius and speed are carried over and the heading is deviated. x and y lie in the canvas widened by half the padding. Each equals the displaced position when that is in range, the far edge when it is below the near edge, and the near edge when it is beyond the far edge |
| `Motion.Tick` | vertices-animation.js:156-161 | the collection keeps its size; dot i is moved with its own draw; radii and speeds are unchanged; every dot ends in bounds |
| `Motion.Ticks` | vertices-animation.js:156-161 | tick t reads its own canvas size and padding, so the window may be resized between ticks. Over any number of ticks the size, every radius and every speed are unchanged. After the last tick every dot is in the bounds of that tick's canvas and padding |
| `Motion.SeededRangesSurviveTicks` | vertices-animation.js:58-75 | radii and speeds drawn from their ranges stay in those ranges under any number of ticks, whatever canvas and padding each tick sees |
| `Motion.SeededDotMayJumpOnFirstTick` | vertices-animation.js:60-66 | a dot seeded at x = -0.8·padding that does not move horizontally is wrapped to the far edge on the first tick |
| `Proximity.DotPairs` | vertices-animation.js:105-108 | `dotPairs` on n dots yields n(n-1)/2 pairs. `.flat()` on line 108 is `Proximity.Flatten`, the rows concatenated in order |
| `Proximity.DotPairsUnfold` | vertices-animation.js:105-108 | the pairs are the first dot with each later dot, followed by the pairs of the remaining dots |
| `Proximity.IndexPairsCount` | vertices-animation.js:105-108 | n dots have n(n-1)/2 index pairs |
| `Proximity.IndexPairsWithin` | vertices-animation.js:105-108 | every index pair (i, j) has i < j < n: no dot is paired with itself |
| `Proximity.IndexPairsSorted` | vertices-animation.js:105-108 | the index pairs are strictly increasing in lexicographic order, so none repeats |
| `Proximity.IndexPairsComplete` | vertices-animation.js:105-108 | every (i, j) with i < j < n is among the index pairs |
| `Proximity.DotPairsIndexed` | vertices-animation.js:105-108 | `dotPairs` yields exactly the dots at the index pairs, in the same order |
| `Proximity.DotPairsEnumeration` | vertices-animation.js:105-108 | `dotPairs` on n dots yields n(n-1)/2 pairs. These are the dots at the index pairs i < j, each once, in lexicographic order, and every such pair appears |
| `Proximity.DistanceOfDots` | vertices-animation.js:86-87 | the distance is `diagonal` of the two coordinate differences. When `diagonal` keeps the square-root promise for them, the distance is at least each difference and at most their sum |
| `Proximity.DistanceOfDotsSymmetric` | vertices-animation.js:86-87 | the distance does not depend on the order of the two dots |
| `Proximity.EdgeOpacity` | vertices-animation.js:96-97 | the opacity is undefined exactly when the maximum is 0. For 0 <= distance <= max it lies in [0, 0.5]: 0.5 at distance 0 and 0 at distance max |
| `Proximity.EdgeOpacityStrictlyDecreasing` | vertices-animation.js:97 | for a positive maximum, a larger distance gives a strictly smaller opacity |
| `Proximity.EdgeOpacityInverse` | vertices-animation.js:97 | the distance is recovered from the opacity as max·(1 - 2·opacity) |
| `Proximity.Vertices` | vertices-animation.js:113-119 | never more edges than pairs. Every edge comes from a given pair no farther apart than the maximum and is `Proximity.EdgeOf` that pair: the line `drawVertex` strokes (lines 96-102, 117), carrying that distance's opacity |
| `Proximity.DrawVertices` | vertices-animation.js:110-120 | at most n(n-1)/2 edges, each no longer than the canvas padding. With a positive padding and non-negative distances, every opacity is defined and in [0, 0.5] |
| `Proximity.DrawVerticesSpec` | vertices-animation.js:110-120 | the edges are exactly one per index pair i < j whose dots are within the padding (both directions of the iff). They come in lexicographic order, an index pair and its reverse never both appear, and each edge carries the opacity of its distance |
| `Color.ParseIntHex` | vertices-animation.js:90-92 | the empty string parses to NaN; a non-empty string of hex digits parses to its base-16 value |
| `Color.HexValue` | vertices-animation.js:90-92 | the base-16 value of n hex digits is below 16^n |
| `Color.Slice` | vertices-animation.js:90-92 | in-range bounds give the substring; an end past the length is clamped to it; a start at or past the length, or not before the end, gives the empty string |
| `Color.HexToRGBA` | vertices-animation.js:89-94 | the opacity passes through. For a `#rrggbb` colour each channel is the base-16 value of its two-digit slice, so it lies in 0..255 |
| `Color.HexToRGBARoundTrip` | vertices-animation.js:89-92 | parsing a colour formatted from channels below 256 gives those channels back |
| `Color.DefaultColors` | vertices-animation.js:5-9 | the model's `HexToRGBA` gives grey 127 on every channel for the default dot colour and black for the default vertex colour. The program itself parses only the vertex colour |

## Left out

- Canvas and DOM handling is browser I/O that the model cannot see: `prepareCanvas`, `manageCanvasSize`, the resize listener, `setContextDefaults`, `clearCanvas`, `drawDot` and `drawDots`, and the path and stroke calls of `drawVertex`.
- Scheduling: `setInterval`, `requestAnimationFrame`, `draw` and `init`. The physics loop and the render loop are not phase-locked, which is concurrency. The model has one whole-collection tick (`Motion.Tick`) and its iteration (`Motion.Ticks`).
- `Math.random`, `Math.sin`, `Math.cos` and `Math.sqrt`/`Math.pow` are oracles. They become parameters, with the square-root promise stated as `IsDiagonal`.
- The order in which random draws are consumed across dots is abstracted: dot i of a creation, or of tick t, gets its own draw `draw(i)` (`draws(t)(i)`).
- IEEE floating point is not modelled; numbers are exact reals. `Math.round` returning -0 is not modelled either.
- The `rgba(...)` string that `hexToRGBA` builds is not modelled. `Color.HexToRGBA` returns its channels and opacity instead.
- Color.ParseIntHex: does not strip leading white space the way `parseInt` does. It does model the sign, the `0x` prefix and the longest run of hex digits.
- The dot count is computed once from the window size. Resizing the window later resizes the canvas but re-creates no dots. `Motion.Ticks` takes a canvas size and a padding per tick (`canvases(t)`, `paddings(t)`), so resizes between ticks are covered; a resize in the middle of a tick is concurrency and is not modelled.
- Color.HexToRGBA: the default argument `opacity = 1` of `hexToRGBA` is not modelled; the opacity is always passed, as at the program's only call site (vertices-animation.js:101).
