/**
 The renderer: a region built from a centre and a resolution, and the map from
 every coloured sample back to the integer pixel it is drawn at.
 */
module Renderer {
  import opened Escape
  import opened Plane
  import opened Histogram

  /** An image pixel (x, y). */
  type Pixel = (u64, u64)

  /** `f64::round`: to the nearest integer, halfway cases away from zero. */
  function RoundHalfAway(x: real): (n: int)
    ensures x - 0.5 <= n as real <= x + 0.5
    ensures n as real - x == 0.5 ==> x >= 0.0
    ensures x - n as real == 0.5 ==> x < 0.0
  {
    if x >= 0.0 then (x + 0.5).Floor else -((-x + 0.5).Floor)
  }

  /** `as u64` on an integral value: saturates at both ends of the range. */
  function SaturateU64(n: int): u64 {
    if n < 0 then 0 else if n > U64_MAX then U64_MAX else n
  }

  /** One pixel coordinate: the offset from the region's lower edge divided by
      the grid step, rounded and cast. A zero step (an interval of width 0)
      makes the floating-point quotient +inf, -inf or NaN, which the cast
      turns into u64::MAX, 0 and 0. */
  function PixelCoord(offset: real, step: real): u64 {
    if step == 0.0 then (if offset > 0.0 then U64_MAX else 0)
    else SaturateU64(RoundHalfAway(offset / step))
  }

  /** The pixel coordinate of x on an axis from lo to hi cut into size steps. */
  function AxisPixel(lo: real, hi: real, size: u64, x: real): u64
    requires size > 0
  {
    PixelCoord(x - lo, (hi - lo) / (size as real))
  }

  /** The pixel a point of the plane is drawn at. */
  function PixelOf(p: Plane, z: Complex): Pixel
    requires p.width > 0 && p.height > 0
  {
    (AxisPixel(p.reMin, p.reMax, p.width, z.re), AxisPixel(p.imMin, p.imMax, p.height, z.im))
  }

  /** The mapping of `mandelbrot_xy_coordinates_with_colours`, for coloured
      points of any colour type, in input order.
      Points only exist on a non-empty grid. */
  function ToPixels<C>(p: Plane, coloured: seq<(Complex, C)>): (out: seq<(Pixel, C)>)
    requires |coloured| == 0 || (p.width > 0 && p.height > 0)
    ensures |out| == |coloured|
    ensures forall k :: 0 <= k < |coloured| ==> out[k] == (PixelOf(p, coloured[k].0), coloured[k].1)
  {
    seq(|coloured|, k requires 0 <= k < |coloured| => (PixelOf(p, coloured[k].0), coloured[k].1))
  }

  lemma RoundIntegral(n: nat)
    ensures RoundHalfAway(n as real) == n
  {
  }

  /** On one axis, the sample of grid index k maps back to k. */
  lemma AxisRoundTrip(lo: real, hi: real, size: u64, k: nat)
    requires k < size && lo != hi
    ensures AxisPixel(lo, hi, size, AxisSample(lo, hi, size, k)) == k
  {
    var step := (hi - lo) / (size as real);
    assert step != 0.0;
    var offset := AxisSample(lo, hi, size, k) - lo;
    assert offset == step * (k as real);
    assert offset / step == k as real;
    RoundIntegral(k);
    assert RoundHalfAway(offset / step) == k;
  }

  /** On an axis of width 0, every sample maps to 0. */
  lemma AxisDegenerate(lo: real, size: u64, k: nat)
    requires 0 < size
    ensures AxisPixel(lo, lo, size, AxisSample(lo, lo, size, k)) == 0
  {
    assert (lo - lo) / (size as real) == 0.0;
  }

  /** Round trip: the pixel of the sample of grid cell (r, i) is (r, i), as
      long as neither interval of the region has width 0. */
  lemma PixelRoundTrip(p: Plane, r: nat, i: nat)
    requires r < p.width && i < p.height
    requires p.reMin != p.reMax && p.imMin != p.imMax
    ensures PixelOf(p, SamplePoint(p, r, i)) == (r, i)
  {
    AxisRoundTrip(p.reMin, p.reMax, p.width, r);
    AxisRoundTrip(p.imMin, p.imMax, p.height, i);
  }

  /** Whatever the region, a sampled point is drawn inside the image: with a
      zero-width interval every sample sits on the lower edge and its quotient
      is NaN, which the cast turns into 0. */
  lemma PixelInImage(p: Plane, r: nat, i: nat)
    requires r < p.width && i < p.height
    ensures PixelOf(p, SamplePoint(p, r, i)).0 < p.width
    ensures PixelOf(p, SamplePoint(p, r, i)).1 < p.height
  {
    if p.reMin == p.reMax {
      AxisDegenerate(p.reMin, p.width, r);
    } else {
      AxisRoundTrip(p.reMin, p.reMax, p.width, r);
    }
    if p.imMin == p.imMax {
      AxisDegenerate(p.imMin, p.height, i);
    } else {
      AxisRoundTrip(p.imMin, p.imMax, p.height, i);
    }
  }

  /** The rendered image of a region: the histogram colouring of its grid,
      mapped to pixels. */
  ghost function Rendered(p: Plane, hsl: HslToRgb): seq<(Pixel, Rgb)> {
    ToPixels(p, RankColours(Grid(p), p.maxIterations, hsl))
  }

  /** What the rendered image holds at grid cell (r, i): the cell's own pixel
      (when no interval has width 0), inside the image, with the cell's colour. */
  lemma RenderedAt(p: Plane, hsl: HslToRgb, r: nat, i: nat)
    requires r < p.width && i < p.height
    ensures |Rendered(p, hsl)| == p.width * p.height
    ensures Index(p, r, i) < |Rendered(p, hsl)|
    ensures var px := Rendered(p, hsl)[Index(p, r, i)].0;
            px.0 < p.width && px.1 < p.height
    ensures p.reMin != p.reMax && p.imMin != p.imMax ==>
              Rendered(p, hsl)[Index(p, r, i)].0 == (r, i)
    ensures Rendered(p, hsl)[Index(p, r, i)].1
            == RankColours(Grid(p), p.maxIterations, hsl)[Index(p, r, i)].1
  {
    ColouredGridAt(p, hsl, r, i);
    PixelInImage(p, r, i);
    if p.reMin != p.reMax && p.imMin != p.imMax {
      PixelRoundTrip(p, r, i);
    }
  }

  /** `mandelbrot_xy_coordinates_with_colours`. */
  method XyCoordinatesWithColours(p: Plane, hsl: HslToRgb) returns (out: seq<(Pixel, Rgb)>)
    ensures out == Rendered(p, hsl)
  {
    var coloured := PointsWithColours(p, hsl);
    out := ToPixels(p, coloured);
  }

  /** `mandelbrot_xy_coordinates_with_colours_parallel`: the same image. */
  method XyCoordinatesWithColoursParallel(p: Plane, hsl: HslToRgb) returns (out: seq<(Pixel, Rgb)>)
    ensures out == Rendered(p, hsl)
  {
    var coloured := PointsWithColoursParallel(p, hsl);
    out := ToPixels(p, coloured);
  }

  /** The region of a width x height image centred on `centre` with
      `resolution` plane units per pixel. */
  function RegionFromParams(centre: Complex, resolution: real, maxIterations: u64, width: u64, height: u64)
    : (p: Plane)
    ensures p.width == width && p.height == height && p.maxIterations == maxIterations
    ensures p.reMax - p.reMin == width as real * resolution
    ensures p.imMax - p.imMin == height as real * resolution
    ensures (p.reMin + p.reMax) / 2.0 == centre.re && (p.imMin + p.imMax) / 2.0 == centre.im
    ensures width > 0 && height > 0 && resolution > 0.0 ==> p.reMin < p.reMax && p.imMin < p.imMax
  {
    var realWidth := width as real * resolution;
    var realHeight := height as real * resolution;
    Plane(centre.re - realWidth / 2.0, centre.re + realWidth / 2.0,
          centre.im - realHeight / 2.0, centre.im + realHeight / 2.0,
          width, height, maxIterations)
  }

  /** `mandelbrot_xy_coords_from_params`. With a non-zero resolution every
      cell (r, i) is drawn at pixel (r, i). */
  method XyCoordsFromParams(centre: Complex, resolution: real, maxIterations: u64,
                            width: u64, height: u64, hsl: HslToRgb)
    returns (out: seq<(Pixel, Rgb)>)
    ensures out == Rendered(RegionFromParams(centre, resolution, maxIterations, width, height), hsl)
    ensures |out| == width * height
    ensures resolution != 0.0 ==>
              forall r, i :: 0 <= r < width && 0 <= i < height ==>
                Index(RegionFromParams(centre, resolution, maxIterations, width, height), r, i) < |out| &&
                out[Index(RegionFromParams(centre, resolution, maxIterations, width, height), r, i)].0 == (r, i)
  {
    var p := RegionFromParams(centre, resolution, maxIterations, width, height);
    out := XyCoordinatesWithColours(p, hsl);
    AllCellsRoundTrip(p, hsl, resolution);
  }

  /** `mandelbrot_from_params_parallel`: the same region and the same image. */
  method FromParamsParallel(centre: Complex, resolution: real, maxIterations: u64,
                            width: u64, height: u64, hsl: HslToRgb)
    returns (out: seq<(Pixel, Rgb)>)
    ensures out == Rendered(RegionFromParams(centre, resolution, maxIterations, width, height), hsl)
    ensures |out| == width * height
    ensures resolution != 0.0 ==>
              forall r, i :: 0 <= r < width && 0 <= i < height ==>
                Index(RegionFromParams(centre, resolution, maxIterations, width, height), r, i) < |out| &&
                out[Index(RegionFromParams(centre, resolution, maxIterations, width, height), r, i)].0 == (r, i)
  {
    var p := RegionFromParams(centre, resolution, maxIterations, width, height);
    out := XyCoordinatesWithColoursParallel(p, hsl);
    AllCellsRoundTrip(p, hsl, resolution);
  }

  lemma AllCellsRoundTrip(p: Plane, hsl: HslToRgb, resolution: real)
    requires p.reMax - p.reMin == p.width as real * resolution
    requires p.imMax - p.imMin == p.height as real * resolution
    ensures |Rendered(p, hsl)| == p.width * p.height
    ensures resolution != 0.0 ==>
              forall r, i :: 0 <= r < p.width && 0 <= i < p.height ==>
                Index(p, r, i) < |Rendered(p, hsl)| && Rendered(p, hsl)[Index(p, r, i)].0 == (r, i)
  {
    if resolution != 0.0 {
      forall r, i | 0 <= r < p.width && 0 <= i < p.height
        ensures Index(p, r, i) < |Rendered(p, hsl)| && Rendered(p, hsl)[Index(p, r, i)].0 == (r, i)
      {
        RenderedAt(p, hsl, r, i);
      }
    }
  }
}
