/**
 The sampling grid of a region of the complex plane (`MandelbrotPlane`) and the
 two evaluators that pair every sample point with its escape time.
 */
module Plane {
  import opened Escape

  /** A rectangular region sampled on a width x height grid, with the cap on
      iterations used for every sample. */
  datatype Plane = Plane(
    reMin: real,
    reMax: real,
    imMin: real,
    imMax: real,
    width: u64,
    height: u64,
    maxIterations: u64)

  /** A sample point together with its escape time. */
  type Sample = (Complex, u64)

  /** Position of grid cell (r, i) in the evaluators' output: the real index is
      the outer loop and the imaginary index the inner one (column-major). */
  function Index(p: Plane, r: nat, i: nat): nat {
    r * p.height + i
  }

  /** The coordinate of grid index k on an axis from lo to hi cut into size
      steps: k steps of (hi - lo) / size above lo. */
  function AxisSample(lo: real, hi: real, size: u64, k: nat): real
    requires size > 0
  {
    (hi - lo) / (size as real) * (k as real) + lo
  }

  /** On an increasing axis the samples start at lo and stay below hi, one
      step apart. */
  lemma AxisSampleInRange(lo: real, hi: real, size: u64, k: nat)
    requires lo < hi && k < size
    ensures lo <= AxisSample(lo, hi, size, k) < hi
    ensures k + 1 < size ==>
              AxisSample(lo, hi, size, k + 1) - AxisSample(lo, hi, size, k) == (hi - lo) / (size as real)
  {
    var step := (hi - lo) / (size as real);
    assert step > 0.0;
    assert step * (size as real) == hi - lo;
    assert step * (k as real) <= step * ((size - 1) as real);
    assert step * ((size - 1) as real) == hi - lo - step;
  }

  /** The point sampled at grid cell (r, i): column r on the real axis, row i
      on the imaginary axis. */
  function SamplePoint(p: Plane, r: nat, i: nat): Complex
    requires p.width > 0 && p.height > 0
  {
    Complex(AxisSample(p.reMin, p.reMax, p.width, r), AxisSample(p.imMin, p.imMax, p.height, i))
  }

  /** The output entry for grid cell (r, i). */
  function Entry(p: Plane, r: nat, i: nat): Sample
    requires p.width > 0 && p.height > 0
  {
    var z := SamplePoint(p, r, i);
    (z, Iterations(z, p.maxIterations))
  }

  /** Reference definition of the evaluators' output: entry k belongs to grid
      cell (k / height, k % height). An empty grid yields no samples. */
  function Grid(p: Plane): (g: seq<Sample>)
    ensures |g| == p.width * p.height
  {
    if p.width == 0 || p.height == 0 then []
    else
      seq(p.width * p.height, k requires 0 <= k < p.width * p.height =>
        Entry(p, k / p.height, k % p.height))
  }

  /** Grid cell (r, i) sits at Index(p, r, i) < width * height. */
  lemma CellIndex(r: nat, i: nat, w: nat, h: nat)
    requires r < w && i < h
    ensures r * h + i < w * h
    ensures (r * h + i) / h == r && (r * h + i) % h == i
  {
    MulMono(r + 1, w, h);
    DivModUnique(r * h + i, h, r, i);
  }

  lemma MulMono(a: nat, b: nat, h: nat)
    requires a <= b
    ensures a * h <= b * h
  {
    assert b * h == a * h + (b - a) * h;
  }

  lemma MulSucc(a: nat, h: nat)
    ensures (a + 1) * h == a * h + h
  {
  }

  /** Dafny's division is Euclidean, so quotient and remainder are unique. */
  lemma DivModUnique(x: nat, h: nat, q: nat, m: nat)
    requires m < h && x == q * h + m
    ensures x / h == q && x % h == m
  {
    var q', m' := x / h, x % h;
    assert x == q' * h + m';
    if q' < q {
      MulMono(q' + 1, q, h);
      MulSucc(q', h);
    } else if q < q' {
      MulMono(q + 1, q', h);
      MulSucc(q, h);
    }
  }

  /** Entry Index(p, r, i) of the grid holds the sample of cell (r, i). */
  lemma GridAt(p: Plane, r: nat, i: nat)
    requires r < p.width && i < p.height
    ensures Index(p, r, i) < |Grid(p)|
    ensures Grid(p)[Index(p, r, i)] == Entry(p, r, i)
  {
    CellIndex(r, i, p.width, p.height);
  }

  /** Every grid entry pairs its point with that point's escape time. */
  lemma GridCounts(p: Plane, k: nat)
    requires k < |Grid(p)|
    ensures Grid(p)[k].1 == Iterations(Grid(p)[k].0, p.maxIterations)
    ensures Grid(p)[k].1 <= p.maxIterations
  {
  }

  /** `points_with_iterations`: nested loops over the real index (outer) and
      the imaginary index (inner), appending each sample with its count. */
  method PointsWithIterations(p: Plane) returns (points: seq<Sample>)
    ensures points == Grid(p)
  {
    points := [];
    var r: nat := 0;
    while r < p.width
      invariant r <= p.width
      invariant |points| == r * p.height
      invariant |points| <= |Grid(p)|
      invariant forall k :: 0 <= k < |points| ==> points[k] == Grid(p)[k]
    {
      var i: nat := 0;
      while i < p.height
        invariant i <= p.height
        invariant |points| == r * p.height + i
        invariant |points| <= |Grid(p)|
      invariant forall k :: 0 <= k < |points| ==> points[k] == Grid(p)[k]
      {
        GridAt(p, r, i);
        var z := SamplePoint(p, r, i);
        points := points + [(z, Iterations(z, p.maxIterations))];
        i := i + 1;
      }
      assert r * p.height + p.height == (r + 1) * p.height;
      r := r + 1;
    }
  }

  /** The sample points alone, in the same column-major order. */
  method SamplePoints(p: Plane) returns (pts: seq<Complex>)
    ensures |pts| == |Grid(p)|
    ensures forall k :: 0 <= k < |pts| ==> pts[k] == Grid(p)[k].0
  {
    pts := [];
    var r: nat := 0;
    while r < p.width
      invariant r <= p.width
      invariant |pts| == r * p.height
      invariant |pts| <= |Grid(p)|
      invariant forall k :: 0 <= k < |pts| ==> pts[k] == Grid(p)[k].0
    {
      var i: nat := 0;
      while i < p.height
        invariant i <= p.height
        invariant |pts| == r * p.height + i
        invariant |pts| <= |Grid(p)|
      invariant forall k :: 0 <= k < |pts| ==> pts[k] == Grid(p)[k].0
      {
        GridAt(p, r, i);
        pts := pts + [SamplePoint(p, r, i)];
        i := i + 1;
      }
      assert r * p.height + p.height == (r + 1) * p.height;
      r := r + 1;
    }
  }

  /** `points_with_iterations_parallel`: the points are built first, then each
      is mapped to its count independently. The map is pure and the collect
      keeps the order, so the result is the sequential evaluator's. */
  method PointsWithIterationsParallel(p: Plane) returns (points: seq<Sample>)
    ensures points == Grid(p)
  {
    var pts := SamplePoints(p);
    points := seq(|pts|, k requires 0 <= k < |pts| => (pts[k], Iterations(pts[k], p.maxIterations)));
    forall k | 0 <= k < |points|
      ensures points[k] == Grid(p)[k]
    {
      GridCounts(p, k);
    }
  }

  /** The end-to-end scenario: in the region [-2, 1.5] x [-1.2, 1.2] sampled at
      700 x 480 with cap 255, the cell nearest -1.25 + 0i is that point exactly,
      and it does not escape. */
  lemma ScenarioPointDoesNotEscape()
    ensures var p := Plane(-2.0, 1.5, -1.2, 1.2, 700, 480, 255);
            Index(p, 150, 240) < |Grid(p)| &&
            Grid(p)[Index(p, 150, 240)] == (Complex(-1.25, 0.0), 255)
  {
    var p := Plane(-2.0, 1.5, -1.2, 1.2, 700, 480, 255);
    GridAt(p, 150, 240);
    var c := SamplePoint(p, 150, 240);
    assert c == Complex(-1.25, 0.0);
    RealPointNeverEscapes(c, 1.5, 255);
  }
}
