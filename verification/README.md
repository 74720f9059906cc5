# Mandelbrot escape-time engine and histogram colouring, in Dafny

This project models the evaluation core of a Mandelbrot explorer:

- **Escape** (`escape.dfy`) models the escape-time predicate `MandelbrotPoint::iterations`.
  It is the bounded loop z ← z² + c from z = 0, which stops once |z|² > 4 or the
  iteration cap is reached.
- **Plane** (`plane.dfy`) models the grid sampler of `MandelbrotPlane`.
  A region is sampled at width × height points in column-major order: the real index
  is the outer loop, the imaginary index the inner one. The sequential and parallel
  evaluators each pair every point with its escape time.
- **Histogram** (`histogram.dfy`) models the two-pass histogram colouring and its parallel twin.
  The first pass counts the escaping samples per iteration count and totals them.
  The second pass gives each escaping sample the hue Σ_{k<count} bucket[k] / total.
  Samples that reach the cap are black.
- **Renderer** (`renderer.dfy`) models the renderer.
  It builds a region from a centre, a resolution and an image size. It maps every
  coloured sample back to an integer pixel (x, y) by dividing its offset by the grid
  step, rounding, and casting to `u64`.

`f64` is modelled as Dafny `real` and `Complex<f64>` as a pair of reals. So z² + c,
the grid formulas and the pixel quotients are exact, and every property below holds in
that exact model. It does not hold bit-for-bit under IEEE-754.

Rust's `f64::round` (halfway cases away from zero) and the saturating `as u64` cast
are written out. A division by a zero grid step is modelled on IEEE-754: +inf becomes
`u64::MAX`, and −inf and NaN become 0. The HSL → RGB conversion of the colour library
is a function parameter `hsl` of the colouring. It is applied to
(hue·360, 100, 50), exactly as the source calls it.

Each computation is checked against an independent reference definition:

- `Iterations` against the escape-time characterisation `IsEscapeTime`;
- the loops of the evaluators against the index formula `Grid`;
- the bucket prefix sums against the rank hue: the fraction of escaping samples that
  escaped strictly earlier, with no buckets involved;
- the pixel mapping against the grid cell it came from.

## Model

| member | source | states |
|---|---|---|
| Escape.Iterate | src/backend.rs:20-25 | From a state on the orbit of c, the loop returns a count between the current step and the cap, the orbit is inside the radius-2 disc at every step it passes, and it stops below the cap only at a step where the orbit is outside |
| Escape.Iterations | src/backend.rs:17-26 | The count never exceeds the cap, every orbit element before it has \|z\|² ≤ 4, and a count below the cap is a step where \|z\|² > 4 (z_0 = 0, z_{k+1} = z_k² + c) |
| Escape.EscapeTimeUnique | src/backend.rs:18-25 | That characterisation has exactly one solution, the value `iterations` returns |
| Escape.EscapesIff | src/backend.rs:20-25 | A point counts below the cap if and only if its orbit leaves the disc at some step before the cap |
| Escape.CapTruncates | src/backend.rs:20 | For m ≤ M, the count under cap m is the count under cap M clipped to m |
| Escape.ZeroCap | src/backend.rs:18-20 | With cap 0 every point gets 0 |
| Escape.OrbitOfOrigin | src/backend.rs:19-22 | The orbit of 0 is constantly 0 |
| Escape.OriginNeverEscapes | src/backend.rs:19-24 | The origin reaches the cap, for every cap |
| Escape.TakesAStep | src/backend.rs:19-23 | With a positive cap the loop runs at least once, because z_0 = 0 is inside |
| Escape.FirstSteps | src/backend.rs:19-22 | z_0 = 0 is inside the disc and z_1 = c |
| Escape.FarPointEscapesAtOne | src/backend.rs:20-23 | A point with \|c\|² > 4 and a cap of at least 1 gets exactly 1 |
| Escape.RealOrbitStaysIn | src/backend.rs:20-24 | For real c, an interval [−b, b] that x ↦ x² + c maps into itself holds the whole orbit, which stays real |
| Escape.RealPointNeverEscapes | src/backend.rs:20-24 | Such a c with b ≤ 2 reaches the cap, for every cap |
| Plane.AxisSampleInRange | src/backend.rs:91-95 | On an increasing axis the k-th sample lies in [lo, hi), and neighbouring samples are one step (hi − lo)/size apart |
| Plane.Grid | src/backend.rs:85-101 | The reference output has exactly width × height entries, and it is empty when either size is 0 |
| Plane.CellIndex | src/backend.rs:89-90 | Column-major position r·height + i of cell (r, i) lies below width·height, and dividing it by height gives back r and i |
| Plane.GridAt | src/backend.rs:89-97 | Entry r·height + i holds the point (re_min + r·(re_max − re_min)/width, im_min + i·(im_max − im_min)/height) paired with its escape time |
| Plane.GridCounts | src/backend.rs:97 | Every entry pairs its point with that point's escape time, which is at most the cap |
| Plane.PointsWithIterations | src/backend.rs:85-101 | The nested loops produce exactly the reference grid, in the same order |
| Plane.SamplePoints | src/backend.rs:104-117 | The point-only loops produce the grid's points, in the grid's order |
| Plane.PointsWithIterationsParallel | src/backend.rs:103-121 | Mapping the points to their counts after building them yields the same sequence as the sequential evaluator |
| Plane.ScenarioPointDoesNotEscape | src/backend.rs:85-101 | In region [−2, 1.5] × [−1.2, 1.2] at 700 × 480 with cap 255, cell (150, 240) is exactly −1.25 + 0i, and it reaches the cap |
| Histogram.CountBuckets | src/backend.rs:153-158 | The first pass yields max_iterations buckets, and bucket k is the number of samples whose count is k |
| Histogram.BucketPrefix | src/backend.rs:153-168 | The first n buckets together hold the samples whose count is below n |
| Histogram.BucketTotal | src/backend.rs:153-159 | The bucket total is the number of samples whose count is below the cap |
| Histogram.BucketHue | src/backend.rs:165-168 | Adding bucket[k]/total for k < n one by one gives the prefix sum of the first n buckets divided by the total |
| Histogram.CountAtMember | src/backend.rs:154-157 | Every sample is counted in the bucket of its own count |
| Histogram.HueRange | src/backend.rs:164-168 | An escaping sample makes the total positive, and its hue lies in [0, 1) |
| Histogram.HueMonotone | src/backend.rs:165-168 | The hue never decreases as the count grows |
| Histogram.HueStrict | src/backend.rs:165-168 | A count that an escaping sample has gets a hue strictly below every larger count up to the cap |
| Histogram.HueZeroIff | src/backend.rs:165-168 | The hue of count n is 0 if and only if no sample's count is below n, so a sole escaping sample gets hue 0 |
| Histogram.BucketHueIsRank | src/backend.rs:153-168 | The bucket-sum hue of an escaping sample equals the fraction of escaping samples that escaped strictly earlier |
| Histogram.Colouring | src/backend.rs:153-183 | Both passes give the reference colouring: the same points in the same order, black at the cap, and otherwise hsl(rank hue·360, 100, 50) |
| Histogram.ColouringParallel | src/backend.rs:216-248 | The parallel second pass gives the same reference colouring |
| Histogram.PointsWithColours | src/backend.rs:123-184 | `points_with_colours` is the reference colouring of the reference grid |
| Histogram.PointsWithColoursParallel | src/backend.rs:186-249 | `points_with_colours_parallel` gives the same result as the sequential version |
| Histogram.ColouredGridAt | src/backend.rs:162-183 | Coloured cell (r, i) keeps its sample point and is black when the point reaches the cap; otherwise it gets the colour of a hue in [0, 1) |
| Renderer.RoundHalfAway | src/renderer.rs:17-19 | `round` lands within 1/2 of its argument, and halfway cases go away from zero |
| Renderer.ToPixels | src/renderer.rs:12-27 | The mapping keeps the length, and passes each colour through unchanged, paired with the pixel of its point |
| Renderer.RoundIntegral | src/renderer.rs:19 | Rounding an integer gives it back |
| Renderer.AxisRoundTrip | src/renderer.rs:17-19 | On an axis of non-zero width, the sample of grid index k maps back to pixel coordinate k |
| Renderer.AxisDegenerate | src/renderer.rs:17-19 | On an axis of width 0 every sample maps to pixel coordinate 0 (NaN cast to u64) |
| Renderer.PixelRoundTrip | src/renderer.rs:17-22 | The pixel of the sample of cell (r, i) is (r, i) when neither interval has width 0 |
| Renderer.PixelInImage | src/renderer.rs:17-22 | The pixel of every sample lies in [0, width) × [0, height) |
| Renderer.RenderedAt | src/renderer.rs:12-27 | Rendered entry r·height + i sits in the image, at pixel (r, i) for a region of non-zero size, with that cell's colour |
| Renderer.XyCoordinatesWithColours | src/renderer.rs:7-28 | The sequential renderer produces the reference image: the reference colouring of the grid, mapped to pixels |
| Renderer.XyCoordinatesWithColoursParallel | src/renderer.rs:31-52 | The parallel renderer produces the same image |
| Renderer.RegionFromParams | src/renderer.rs:110-115 | The region is width·resolution wide and height·resolution tall and centred on the centre, and it is non-degenerate when sizes and resolution are positive |
| Renderer.AllCellsRoundTrip | src/renderer.rs:110-115 | For a region of that shape with non-zero resolution, every cell (r, i) is drawn at pixel (r, i) |
| Renderer.XyCoordsFromParams | src/renderer.rs:102-129 | Renders the region built from the parameters, with width × height entries; at non-zero resolution every cell lands on its own pixel |
| Renderer.FromParamsParallel | src/renderer.rs:132-159 | Builds the identical region and renders the identical image as the sequential entry point |

## Left out

- The SIMD lane-recycling evaluator and its multi-threaded form are not in the backend source this model follows. `points_with_colours_simd` and `points_with_colours_simd_parallel` are called from src/renderer.rs:58 and 81, but the backend has no such functions, so the `_simd` renderer entry points are not modelled.
- The smooth-log palette colouring is left out for the same reason.
- The palette argument of the renderer entry points is left out for the same reason. The renderer calls a palette-taking `points_with_colours(colours)` (src/renderer.rs:11, 35), but the backend's `points_with_colours` takes no palette (src/backend.rs:123). The model composes the renderer with the histogram colouring. The pixel mapping `ToPixels` is generic over the colour type.
- The HSL → RGB conversion of the colour library, and the rounding of its channels to `u8`, are foreign code. They are the parameter `hsl`; only the black branch is concrete.
- IEEE-754 rounding is not modelled: arithmetic is exact over `real`. Round-trip failures at region edges caused by floating-point error are therefore out of scope. The one floating-point behaviour that is kept is division by a zero grid step (IEEE infinities and NaN, then the saturating cast).
- Renderer.ToPixels: requires a non-empty grid whenever there are points. With zero width or height the source divides by zero, but it then has no points to map.
- rayon parallelism is modelled as the same pure, order-preserving map. Thread scheduling is not modelled.
- Bucket counters and their total are `u64` in the source and unbounded here. They cannot exceed the number of samples, which is a `u64` product.
- The GUI, mouse handling, render thread and PNG export (src/main.rs), and the benchmarks (benches/simd.rs), are UI, I/O and measurement.
- The code does not reject a region with re_max ≤ re_min or im_max ≤ im_min, and neither does the model. Such regions are sampled and mapped as written. Because the exact model divides by the step, the round trip holds for any interval of non-zero width, including a reversed one.
- The parallel evaluators keep the input order, because rayon's `collect` preserves it. The model states that they equal the sequential ones.
