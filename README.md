# image-buffer: a verified model of the image analysis and Hilbert-curve core

image-buffer is a browser image viewer. It applies shader effects to an
uploaded image and can overlay a Hilbert curve coloured by the image. This
project models the parts of `src/main.js` that compute something and proves
properties about them:

- **Hilbert curve** (`hilbert.dfy`, with base-4 digit arithmetic in
  `base4.dfy`).
  - `rot`, `d2xy` and `hilbertPoints`. `D2xy` is the loop of `d2xy`, proved
    to compute `CellAt(order, d)`: the cell its loop holds after `order`
    rounds.
  - `IndexOf` is an independent inverse transform. With it the model proves
    that `CellAt(k, .)` is a bijection between `[0, 4^k)` and the
    `2^k x 2^k` grid.
  - Consecutive indices give cells that differ by one step along exactly
    one axis, which is stronger than a diagonal-or-orthogonal neighbourhood.
  - `HilbertPoints` fills an array with the scaled cells. The curve it
    returns lies in the unit square and has no repeated point.
- **Image analysis** (`analysis.dfy`). `analyzeImage` walks a coarse grid of
  the 128 x 128 sample canvas and sums luma, squared luma and neighbour
  differences. The two nested loops are methods proved against recursive
  specification functions. The per-texture cache is a class whose `cache`
  map only ever holds the true statistics of its textures.
- **Automatic effect choice** (`autoeffect.dfy`). The rule chain of
  `chooseAutoEffect` picks an effect and its intensity from
  `(contrast, edge)`. The model proves:
  - the four decision regions and their monotonicity;
  - that the effect can be read off the squared contrast the analysis
    computes;
  - that for any byte image the intensity lies in `(0.6, 1]`.
- **Curve sampling** (`sampling.dfy`). The loop of `generateFractalFromImage`
  maps each curve point to a clamped pixel index and to a vertex. It is
  proved to fill `positions` and `colors` exactly as the reference functions
  `Vertices` and `Colours` describe. Every index it reads is inside the RGBA
  buffer.
- **Wheel zoom** (`view.dfy`). The wheel handler scales the zoom by `0.9` or
  `1.1` and clamps it into `[0.2, 5]`.

Arithmetic conventions:

- Luma is kept exact as an integer scaled by 1000.
- JavaScript's `Math.round` is `floor(v + 0.5)`.
- `contrast` is kept as its square, because the model has no square root.
- The shifts in `d2xy` are integer division by 2 and 4. This is exact in the
  32-bit range that `D2xy`'s precondition states.

## Model

| member | source | states |
|---|---|---|
| Base4.Shift | src/main.js:369 | `t` after `k` rounds of `t >>= 2` (line 377): the index `d` with its `2k` low bits dropped |
| Base4.Digit | src/main.js:372-373 | the two low bits of `t` that round `k` reads, a base-4 digit below `4` |
| Hilbert.BitRx | src/main.js:372 | `rx = 1 & (t >> 1)`, a bit |
| Hilbert.BitRy | src/main.js:373 | `ry = 1 & (t ^ rx)` for a bit `rx`, a bit |
| Hilbert.Step | src/main.js:372-377 | one round of the `d2xy` loop at scale `s`: read `rx` and `ry` from `t`, `rot`, then add `s * rx` and `s * ry` |
| Hilbert.Rot | src/main.js:382-389 | `rot` keeps a cell of the `n x n` grid inside the grid |
| Hilbert.RotInvolution | src/main.js:382-389 | applying `rot` twice with the same bits gives back the original cell, so each round of `d2xy` can be undone |
| Hilbert.RotAdjacent | src/main.js:382-389 | `rot` maps neighbouring cells to neighbouring cells |
| Hilbert.CellAt | src/main.js:367-380 | after `k` rounds of the `d2xy` loop the cell lies in the `2^k x 2^k` grid |
| Hilbert.D2xy | src/main.js:367-380 | the `d2xy` loop returns `CellAt(order, d)`, and for `d < 4^order` the inverse transform `IndexOf` maps that cell back to `d` |
| Hilbert.Round | src/main.js:372-378 | one pass of the loop body turns the cell after `k` rounds into the cell after `k + 1` rounds and shifts `t` right by two bits |
| Hilbert.LowBits | src/main.js:373-374 | `rx = 1 & (t >> 1)` and `ry = 1 & (t ^ rx)` are the two bits of the lowest base-4 digit of `t` |
| Hilbert.RoundStep | src/main.js:373-377 | rotating and then offsetting by `s * rx`, `s * ry` is one step of `CellAt` |
| Hilbert.IndexOf | src/main.js:367-380 | the inverse transform of `d2xy` gives an index below `4^k` for every cell of the `2^k x 2^k` grid |
| Hilbert.QuadrantDigit | src/main.js:373-374 | the digit of a quadrant reproduces the `rx`, `ry` bits that `d2xy` reads from it |
| Hilbert.UnstepStep | src/main.js:375-377 | undoing one round recovers both the digit read and the cell before the round |
| Hilbert.StepUnstep | src/main.js:375-377 | replaying the round that `Unstep` undid restores the cell |
| Hilbert.IndexOfCellAt | src/main.js:367-380 | `IndexOf(k, CellAt(k, d))` is the number formed by the `k` low base-4 digits of `d` |
| Hilbert.CellAtIndexOf | src/main.js:367-380 | `CellAt(k, IndexOf(k, c)) == c` for every cell `c` of the grid |
| Hilbert.CellAtIndexOfUnfold | src/main.js:367-380 | one round of `CellAt(k, IndexOf(k, c))` is the inner cell moved back into the quadrant of `c` |
| Hilbert.CellAtOfSum | src/main.js:367-380 | index `low + 4^(k-1) * q` reaches `CellAt(k - 1, low)` moved into quadrant `q` |
| Hilbert.LowCellOfSum | src/main.js:367-380 | digits above the `k` low ones do not change the cell after `k` rounds |
| Hilbert.CellAtDigits | src/main.js:367-380 | two indices with the same `k` low digits reach the same cell after `k` rounds |
| Hilbert.CellAtFromParts | src/main.js:367-380 | the cell after `k` rounds depends only on the cell after `k - 1` rounds and digit `k - 1` |
| Hilbert.IndexAfterCell | src/main.js:367-380 | round trip: `IndexOf(k, CellAt(k, d)) == d` for every `d < 4^k` |
| Hilbert.CellAtInjective | src/main.js:367-380 | distinct indices below `4^k` give distinct cells |
| Hilbert.CellAtSurjective | src/main.js:367-380 | every cell of the `2^k x 2^k` grid is visited by some index below `4^k` |
| Hilbert.CellAtLowDigits | src/main.js:367-380 | `d2xy` ignores the bits of `d` above the lowest `2 * order` |
| Hilbert.CellAtStart | src/main.js:367-380 | an index whose `k` low digits are zero lands on `(0, 0)` |
| Hilbert.CellAtEnd | src/main.js:367-380 | an index whose `k` low digits are all `3` lands on `(2^k - 1, 0)` |
| Hilbert.StepAdjacent | src/main.js:372-378 | a round with the same digit keeps neighbouring cells neighbours |
| Hilbert.SameQuadrantAdjacent | src/main.js:367-380 | neighbours inside one quadrant stay neighbours one order up |
| Hilbert.CrossQuadrantAdjacent | src/main.js:367-380 | the last cell of one quadrant and the first cell of the next are neighbours |
| Hilbert.NextQuadrant | src/main.js:378 | when the low digits wrap around, the next digit goes up by one |
| Hilbert.CrossQuadrant | src/main.js:372-378 | leaving quadrant `q` at its exit corner enters quadrant `q + 1` at a neighbouring cell |
| Hilbert.CellAtAdjacentGeneral | src/main.js:367-380 | consecutive indices whose low `k` digits do not wrap give neighbouring cells |
| Hilbert.CellAtAdjacent | src/main.js:367-380 | Hilbert locality: for `d + 1 < 4^k`, cells `d` and `d + 1` differ by one step along exactly one axis |
| Hilbert.Normalized | src/main.js:361 | a cell of the `n x n` grid divided by `n - 1` in each coordinate |
| Hilbert.CurveAt | src/main.js:360-361 | point `d` of `hilbertPoints(order)`: the normalised `d2xy(order, d)` |
| Hilbert.HilbertPoints | src/main.js:355-364 | `hilbertPoints(order)` returns `4^order` points; point `d` is cell `d` of the curve scaled by `1 / (n - 1)` |
| Hilbert.CurvePoint | src/main.js:359-362 | one iteration computes point `d` of the curve |
| Hilbert.CurveSize | src/main.js:356-357 | `n * n` is `4^order`, with `n >= 2` and at most `2^30` points for `order <= 15` |
| Hilbert.NormalizedInUnitSquare | src/main.js:362 | `[x / (n - 1), y / (n - 1)]` lies in `[0, 1] x [0, 1]` for a cell of the grid |
| Hilbert.NormalizedInjective | src/main.js:362 | the scaling keeps distinct cells distinct |
| Hilbert.PointsInUnitSquare | src/main.js:355-364 | every point `hilbertPoints` returns lies in the unit square |
| Hilbert.PointsDistinct | src/main.js:355-364 | no point of the curve appears twice |
| Base4.LowOfSmall | src/main.js:378 | for `d < 4^k`, the digits read in `k` rounds of `t >>= 2` make up `d` itself |
| Base4.Carry | src/main.js:378 | adding one to `d` either leaves `t` after `k` shifts unchanged or raises it by one, depending on whether the `k` low digits wrap |
| Base4.Decompose | src/main.js:378 | the digits read in `k + 1` rounds are those of `k` rounds plus `4^k` times digit `k` |
| ImageAnalysis.Luma | src/main.js:218 | `luma(r, g, b)` scaled by 1000: `299 r + 587 g + 114 b` |
| ImageAnalysis.Abs | src/main.js:227 | `Math.abs`: non-negative and equal to `v` or `-v` |
| ImageAnalysis.PixelLuma | src/main.js:221 | the scaled luma of the RGB bytes at `(y * 128 + x) * 4` |
| ImageAnalysis.Visit | src/main.js:221-228 | what one visited pixel adds: count 1, its luma, its squared luma, and the absolute luma differences to its right and lower neighbours when both exist |
| ImageAnalysis.RowSums | src/main.js:219-230 | the accumulators over the visited pixels of row `y` left of `x` |
| ImageAnalysis.GridSums | src/main.js:219-230 | the accumulators over the visited rows above `y` |
| ImageAnalysis.StatsOf | src/main.js:231-235 | the result `analyzeImage` computes for a sample canvas: squared contrast and edge estimate from the sums over the whole visited grid |
| ImageAnalysis.VisitPixel | src/main.js:221-228 | the body of the inner loop adds the pixel's luma, its square and its neighbour term exactly as `Visit` describes |
| ImageAnalysis.SampleRow | src/main.js:220-229 | the inner loop adds the sums of the 32 visited pixels of row `y` to the accumulators |
| ImageAnalysis.SampleSums | src/main.js:219-230 | the nested loops leave the sums of the whole grid, with `count == 1024` and a non-negative edge sum |
| ImageAnalysis.FromSums | src/main.js:231-234 | the squared contrast and the normalised edge estimate are non-negative |
| ImageAnalysis.RowCount | src/main.js:220-222 | each visited row contributes one count per visited pixel |
| ImageAnalysis.GridCount | src/main.js:219-222 | the first `r` visited rows hold `32 * r` pixels, and the edge sum is non-negative |
| ImageAnalysis.VisitIndicesInBounds | src/main.js:221-226 | every byte index the loop reads, including both neighbours, is inside the 128 x 128 RGBA buffer |
| ImageAnalysis.NeighbourTermInside | src/main.js:223-228 | a pixel contributes to the edge sum only when both neighbours at distance `step` lie inside the canvas |
| ImageAnalysis.UniformLuma | src/main.js:221 | in an image of one colour every visited pixel has the same luma |
| ImageAnalysis.UniformRow | src/main.js:220-229 | a row of one colour adds `c` times the luma, `c` times its square and no edge |
| ImageAnalysis.UniformGrid | src/main.js:219-230 | over a single-colour image the sums are those of a constant luma |
| ImageAnalysis.ConstantLumaStats | src/main.js:231-234 | constant luma gives zero variance, so zero contrast, and zero edge estimate |
| ImageAnalysis.UniformHasNoContrastNorEdge | src/main.js:215-234 | a single-colour sample canvas has contrast 0 and edge estimate 0 |
| ImageAnalysis.PixelLumaBound | src/main.js:218 | the luma of a pixel of bytes lies in `[0, 255]` |
| ImageAnalysis.RowBounded | src/main.js:220-229 | in a row of bytes the sum of squares is at most `255` times the sum of luma |
| ImageAnalysis.GridBounded | src/main.js:219-230 | over the grid the sum of squares is at most `255` times the sum of luma |
| ImageAnalysis.VarianceBound | src/main.js:231-232 | under that bound the variance is at most `255^2 / 4` |
| ImageAnalysis.ContrastAtMostHalf | src/main.js:231-233 | for any image of bytes the contrast lies in `[0, 0.5]`, so its square lies in `[0, 0.25]` |
| ImageAnalysis.Texture.constructor | src/main.js:205-214 | a texture carries the bytes `drawImage` leaves in the sample canvas |
| ImageAnalysis.Analyzer.constructor | src/main.js:37 | the analysis cache starts empty |
| ImageAnalysis.Analyzer.Analyze | src/main.js:203-238 | returns the statistics of the texture. A cached texture gets its entry back and the cache is unchanged. Otherwise the result is stored under the texture. Every cache entry stays the true statistics of its texture |
| AutoEffect.EffectIndex | src/main.js:242-253 | the effect index lies in `0..3` and is `0` exactly for no effect |
| AutoEffect.EffectAt | src/main.js:98-100 | the effect the selector handler applies for index `i` has shader index `i` |
| AutoEffect.Min | src/main.js:257 | `Math.min`: at most both arguments and equal to one of them |
| AutoEffect.EffectOfStats | src/main.js:244-252 | the effect the decision picks from the statistics, read off the squared contrast |
| AutoEffect.Choose | src/main.js:244-263 | before `toFixed(2)` rounding, edge pulse gets intensity in `(0.9, 1]`, RGB warp above `0.61`, luma displacement above `0.6` (at most `1` for a non-negative contrast), and no effect gets `0.8` |
| AutoEffect.DecisionRegions | src/main.js:244-253 | each effect is chosen on exactly the region its rule and the earlier rules delimit: edge pulse iff `edge > 0.18`, RGB warp iff not that and `contrast > 0.35`, luma displacement iff neither and `contrast < 0.2`, none otherwise |
| AutoEffect.EdgePulseMonotone | src/main.js:244-258 | more edges never take the edge pulse away nor lower its intensity |
| AutoEffect.ContrastMonotone | src/main.js:259-262 | below the edge threshold, luma displacement weakens and RGB warp strengthens as the contrast grows |
| AutoEffect.EffectFromSquare | src/main.js:241-253 | comparing the contrast with `0.35` and `0.2` agrees with comparing its square with the squared thresholds, so the effect follows from the analysis statistics |
| AutoEffect.IntensityInRange | src/main.js:241-263 | for any image of bytes the chosen unrounded intensity lies in `(0.6, 1]` |
| FractalSampling.Round | src/main.js:332-333 | `Math.round(v)` is the integer within half a unit of `v`, with halves rounded up |
| FractalSampling.Clamp | src/main.js:332-333 | `Math.min(hi, Math.max(0, v))` lies in `[0, hi]` and is `v` when `v` already does |
| FractalSampling.SampleCoord | src/main.js:332-333 | the sampled column (row) lies in `[0, width)` (`[0, height)`) for any curve coordinate |
| FractalSampling.ClampUnneededInUnitSquare | src/main.js:332-333 | for a coordinate in `[0, 1]` the clamp never acts |
| FractalSampling.SampleIndex | src/main.js:332-334 | the red, green and blue bytes at `idx` are inside the `width * height * 4` buffer |
| FractalSampling.RowMajorBound | src/main.js:334 | `y * width + x` indexes a pixel of the image |
| FractalSampling.Position | src/main.js:337-338 | the vertex of a curve point: `(px - 0.5) * 2`, `(py - 0.5) * 2`, `0` |
| FractalSampling.Channel | src/main.js:335 | a sampled byte divided by `255` |
| FractalSampling.PositionInQuad | src/main.js:337-341 | a curve point of the unit square becomes a vertex in the `[-1, 1]` quad with `z = 0` |
| FractalSampling.PositionInjective | src/main.js:337-338 | distinct curve points give distinct vertices |
| FractalSampling.ChannelInUnitRange | src/main.js:335 | a byte divided by 255 lies in `[0, 1]` |
| FractalSampling.Vertices | src/main.js:327 | the `positions` buffer holds three entries per curve point |
| FractalSampling.Colours | src/main.js:328 | the `colors` buffer holds three entries per curve point |
| FractalSampling.VerticesAt | src/main.js:339-341 | entries `3i`, `3i + 1`, `3i + 2` of `positions` are the vertex of point `i` |
| FractalSampling.ColoursAt | src/main.js:342-344 | entries `3i`, `3i + 1`, `3i + 2` of `colors` are the channels of the pixel point `i` samples |
| FractalSampling.SampleColour | src/main.js:332-335 | the colour of one iteration is the red, green and blue of the clamped pixel |
| FractalSampling.PutTriple | src/main.js:339-344 | writing the next triple extends the prefix of the buffer that agrees with its specification by three entries and leaves every later entry unchanged |
| FractalSampling.SampleCurve | src/main.js:327-345 | the loop fills `positions` with exactly `Vertices(points)` and `colors` with exactly `Colours(points, ...)` |
| View.Sign | src/main.js:129 | `Math.sign` is `-1`, `0` or `1` with the sign of its argument |
| View.Clamp | src/main.js:130 | `THREE.MathUtils.clamp` lies in `[lo, hi]` and leaves values already inside alone |
| View.WheelZoom | src/main.js:128-130 | after any wheel event the zoom lies in `[0.2, 5]` |
| View.WheelDirection | src/main.js:128-130 | scrolling down never zooms in, scrolling up never zooms out, and a zero delta keeps an in-range zoom |
| View.WheelStep | src/main.js:128-130 | away from the limits each wheel event scales the zoom by exactly `0.9` or `1.1` |

## Left out

- Three.js scene, render targets, GLSL shaders, effect uniforms other than the chosen effect and intensity, the effect animation, and `hslToRgb`: rendering and colour animation, with no logic to prove.
- DOM and file handling: file loading, thumbnails, selection, pan (pointer handlers), PNG export and `removeFractal`. These are I/O and UI state. The image bytes enter the model as a parameter.
- `drawImage` letterboxing into the 128 x 128 canvas, and the canvas `getImageData` reads: the canvas is a browser API. The model takes the canvas bytes as the texture's `samples`. The canvas starts transparent, so a non-square image leaves margins of luma 0. The model's `Uniform` compares only the red, green and blue bytes, so margin alpha does not matter. A single-colour image therefore gives a uniform canvas, and zero contrast, only when it is square or black.
- `vite.config.js`: build configuration.
- Floating point: `Float32Array` storage, double rounding in luma, variance and normalisation, and `toFixed(2)`/`parseFloat` of the intensity. The model computes with exact reals, and the intensity is the unrounded value.
- ImageAnalysis.FromSums: returns the square of `contrast`, because `Math.sqrt` has no counterpart here. AutoEffect.EffectFromSquare relates it back to the contrast thresholds.
- AutoEffect.Choose: takes the contrast as a parameter rather than calling `analyzeImage`. AutoEffect.IntensityInRange ties it to `StatsOf` through the square.
- ImageAnalysis.Analyzer.Analyze: the cache is a map with strong keys. `WeakMap`'s garbage collection of entries is not modelled.
- Hilbert.D2xy: requires `order <= 30` and `d < 2^31`, the range where JavaScript's 32-bit `<<` and `>>` agree with integer arithmetic. Outside it the shifts wrap, and that wrap-around is not modelled.
- Hilbert.HilbertPoints: requires `1 <= order <= 15`. For `order = 0` the source divides `0 / 0` and yields `NaN` coordinates. The source does not special-case `order = 0`, so the model rules it out. Above 15 a JavaScript array cannot hold `4^order` entries.
- FractalSampling.SampleCurve: requires a non-empty image whose byte length is `width * height * 4`, as `getImageData` returns. A zero-sized image is not modelled.
