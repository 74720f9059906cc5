/**
 Histogram colouring (`points_with_colours` and its parallel twin).

 The first pass counts, for every iteration count below the cap, how many
 samples stopped at exactly that count, and totals the counts. The second
 pass gives every escaping sample the hue Σ_{k < count} bucket[k] / total,
 which is the fraction of escaping samples that escaped strictly earlier;
 samples that reached the cap are black.
 */
module Histogram {
  import opened Escape
  import opened Plane

  newtype byte = x: int | 0 <= x < 256

  datatype Rgb = Rgb(red: byte, green: byte, blue: byte)

  const Black: Rgb := Rgb(0, 0, 0)

  /** The HSL -> RGB conversion of the colour library, applied to
      (hue in degrees, saturation %, lightness %) and rounded to bytes. It is
      not modelled: the colouring takes it as a parameter. */
  type HslToRgb = (real, real, real) -> Rgb

  /** Saturation and lightness of every escaping sample's colour. */
  const Saturation: real := 100.0
  const Lightness: real := 50.0

  // ---------------------------------------------------------------------------
  // Counting

  /** Number of samples whose count is exactly n. */
  function CountAt(points: seq<Sample>, n: int): nat {
    if |points| == 0 then 0
    else CountAt(points[..|points| - 1], n) + (if points[|points| - 1].1 == n then 1 else 0)
  }

  /** Number of samples whose count is below n. */
  function CountBelow(points: seq<Sample>, n: int): nat {
    if |points| == 0 then 0
    else CountBelow(points[..|points| - 1], n) + (if points[|points| - 1].1 < n then 1 else 0)
  }

  /** Reference histogram: bucket k holds the number of samples with count k,
      for every k below the cap. */
  function Buckets(points: seq<Sample>, maxIterations: u64): seq<nat> {
    seq(maxIterations, k requires 0 <= k < maxIterations => CountAt(points, k))
  }

  /** Sum of a sequence of counts, added left to right. */
  function Sum(s: seq<nat>): nat {
    if |s| == 0 then 0 else Sum(s[..|s| - 1]) + s[|s| - 1]
  }

  /** The first pass: a zeroed bucket per count below the cap, incremented once
      for every sample that escaped. */
  method CountBuckets(points: seq<Sample>, maxIterations: u64) returns (buckets: seq<nat>)
    ensures buckets == Buckets(points, maxIterations)
  {
    buckets := seq(maxIterations, _ => 0);
    for j := 0 to |points|
      invariant |buckets| == maxIterations
      invariant forall k :: 0 <= k < maxIterations ==> buckets[k] == CountAt(points[..j], k)
    {
      assert points[..j + 1][..j] == points[..j];
      var n := points[j].1;
      if n < maxIterations {
        buckets := buckets[n := buckets[n] + 1];
      }
    }
    assert points[..|points|] == points;
  }

  lemma {:induction false} CountBelowStep(points: seq<Sample>, n: int)
    ensures CountBelow(points, n + 1) == CountBelow(points, n) + CountAt(points, n)
  {
    if |points| > 0 {
      CountBelowStep(points[..|points| - 1], n);
    }
  }

  lemma {:induction false} CountBelowMono(points: seq<Sample>, a: int, b: int)
    requires a <= b
    ensures CountBelow(points, a) <= CountBelow(points, b)
  {
    if |points| > 0 {
      CountBelowMono(points[..|points| - 1], a, b);
    }
  }

  /** Every sample is counted in the bucket of its own count. */
  lemma {:induction false} CountAtMember(points: seq<Sample>, j: nat)
    requires j < |points|
    ensures CountAt(points, points[j].1) >= 1
  {
    if j < |points| - 1 {
      var front := points[..|points| - 1];
      assert front[j] == points[j];
      CountAtMember(front, j);
    }
  }

  /** No sample is counted below n exactly when every count is at least n. */
  lemma {:induction false} CountBelowZeroIff(points: seq<Sample>, n: int)
    ensures CountBelow(points, n) == 0 <==> forall j :: 0 <= j < |points| ==> points[j].1 >= n
  {
    if |points| > 0 {
      var front := points[..|points| - 1];
      CountBelowZeroIff(front, n);
      assert forall j :: 0 <= j < |front| ==> front[j] == points[j];
    }
  }

  /** The first n buckets together hold exactly the samples with count below n. */
  lemma {:induction false} BucketPrefix(points: seq<Sample>, maxIterations: u64, n: nat)
    requires n <= maxIterations
    ensures Sum(Buckets(points, maxIterations)[..n]) == CountBelow(points, n)
  {
    var b := Buckets(points, maxIterations);
    if n == 0 {
      CountBelowZeroIff(points, 0);
    } else {
      BucketPrefix(points, maxIterations, n - 1);
      assert b[..n][..n - 1] == b[..n - 1];
      CountBelowStep(points, n - 1);
    }
  }

  /** The total of all buckets is the number of escaping samples. */
  lemma BucketTotal(points: seq<Sample>, maxIterations: u64)
    ensures |Buckets(points, maxIterations)| == maxIterations
    ensures Sum(Buckets(points, maxIterations)) == CountBelow(points, maxIterations)
  {
    var b := Buckets(points, maxIterations);
    BucketPrefix(points, maxIterations, maxIterations);
    assert b[..maxIterations] == b;
  }

  // ---------------------------------------------------------------------------
  // Hue

  /** Reference hue of count n: the fraction of escaping samples that escaped
      before n. With no escaping sample no hue is ever taken, and it is 0. */
  function RankHue(points: seq<Sample>, maxIterations: u64, n: int): real {
    var total := CountBelow(points, maxIterations);
    if total == 0 then 0.0 else CountBelow(points, n) as real / total as real
  }

  /** The hue as the colouring computes it: the bucket fractions below n,
      bucket[k] / total, added one by one. */
  function BucketHue(buckets: seq<nat>, total: nat, n: nat): (hue: real)
    requires n <= |buckets| && total > 0
    ensures hue == Sum(buckets[..n]) as real / total as real
  {
    if n == 0 then 0.0
    else
      var hue := BucketHue(buckets, total, n - 1) + buckets[n - 1] as real / total as real;
      assert buckets[..n][..n - 1] == buckets[..n - 1];
      hue
  }

  lemma FractionBelowOne(a: nat, t: nat)
    requires a < t
    ensures 0.0 <= a as real / t as real < 1.0
  {
  }

  lemma FractionMono(a: nat, b: nat, t: nat)
    requires a <= b && t > 0
    ensures a as real / t as real <= b as real / t as real
  {
  }

  lemma FractionStrict(a: nat, b: nat, t: nat)
    requires a < b && t > 0
    ensures a as real / t as real < b as real / t as real
  {
  }

  /** An escaping sample makes the total positive, and its own hue lies in
      [0, 1): the sample itself is counted at its count, not below it. */
  lemma HueRange(points: seq<Sample>, maxIterations: u64, j: nat)
    requires j < |points| && points[j].1 < maxIterations
    ensures CountBelow(points, maxIterations) > 0
    ensures 0.0 <= RankHue(points, maxIterations, points[j].1) < 1.0
  {
    var n := points[j].1;
    CountAtMember(points, j);
    CountBelowStep(points, n);
    CountBelowMono(points, n + 1, maxIterations);
    FractionBelowOne(CountBelow(points, n), CountBelow(points, maxIterations));
  }

  /** Hue never decreases as the count grows. */
  lemma HueMonotone(points: seq<Sample>, maxIterations: u64, n1: int, n2: int)
    requires n1 <= n2
    ensures RankHue(points, maxIterations, n1) <= RankHue(points, maxIterations, n2)
  {
    var total := CountBelow(points, maxIterations);
    if total > 0 {
      CountBelowMono(points, n1, n2);
      FractionMono(CountBelow(points, n1), CountBelow(points, n2), total);
    }
  }

  /** A count that some escaping sample has gets a hue strictly below that of
      any larger count up to the cap. */
  lemma HueStrict(points: seq<Sample>, maxIterations: u64, j: nat, n2: int)
    requires j < |points| && points[j].1 < n2 <= maxIterations
    ensures RankHue(points, maxIterations, points[j].1) < RankHue(points, maxIterations, n2)
  {
    var n1 := points[j].1;
    HueRange(points, maxIterations, j);
    CountAtMember(points, j);
    CountBelowStep(points, n1);
    CountBelowMono(points, n1 + 1, n2);
    FractionStrict(CountBelow(points, n1), CountBelow(points, n2), CountBelow(points, maxIterations));
  }

  /** Hue 0 means that no sample escaped earlier; in particular a sole
      escaping sample, or the earliest ones, get hue 0. */
  lemma HueZeroIff(points: seq<Sample>, maxIterations: u64, n: int)
    requires n <= maxIterations
    ensures RankHue(points, maxIterations, n) == 0.0
            <==> forall j :: 0 <= j < |points| ==> points[j].1 >= n
  {
    var total := CountBelow(points, maxIterations);
    CountBelowZeroIff(points, n);
    if total == 0 {
      CountBelowZeroIff(points, maxIterations);
    } else if CountBelow(points, n) > 0 {
      FractionStrict(0, CountBelow(points, n), total);
    }
  }

  /** The bucket-based hue of an escaping sample is its rank hue. */
  lemma BucketHueIsRank(points: seq<Sample>, maxIterations: u64, j: nat)
    requires j < |points| && points[j].1 < maxIterations
    ensures Sum(Buckets(points, maxIterations)) > 0
    ensures BucketHue(Buckets(points, maxIterations), Sum(Buckets(points, maxIterations)), points[j].1)
            == RankHue(points, maxIterations, points[j].1)
  {
    BucketTotal(points, maxIterations);
    HueRange(points, maxIterations, j);
    BucketPrefix(points, maxIterations, points[j].1);
  }

  // ---------------------------------------------------------------------------
  // Colouring

  /** Reference colouring: every sample keeps its point; an escaping sample is
      coloured by its rank hue, a sample that reached the cap is black. */
  function RankColours(points: seq<Sample>, maxIterations: u64, hsl: HslToRgb): seq<(Complex, Rgb)> {
    seq(|points|, k requires 0 <= k < |points| =>
      (points[k].0,
       if points[k].1 < maxIterations
       then hsl(RankHue(points, maxIterations, points[k].1) * 360.0, Saturation, Lightness)
       else Black))
  }

  /** The colour the second pass gives to a sample with count n. */
  function ColourOf(buckets: seq<nat>, total: nat, maxIterations: u64, hsl: HslToRgb, n: u64): Rgb
    requires |buckets| == maxIterations
    requires n < maxIterations ==> total > 0
  {
    if n < maxIterations then hsl(BucketHue(buckets, total, n) * 360.0, Saturation, Lightness)
    else Black
  }

  /** Both passes of `points_with_colours` over given samples, the second as a
      loop that appends one coloured sample at a time. */
  method Colouring(points: seq<Sample>, maxIterations: u64, hsl: HslToRgb)
    returns (out: seq<(Complex, Rgb)>)
    ensures out == RankColours(points, maxIterations, hsl)
  {
    var buckets := CountBuckets(points, maxIterations);
    var total := Sum(buckets);
    out := [];
    for j := 0 to |points|
      invariant |out| == j
      invariant forall k :: 0 <= k < j ==> out[k] == RankColours(points, maxIterations, hsl)[k]
    {
      var n := points[j].1;
      if n < maxIterations {
        BucketHueIsRank(points, maxIterations, j);
      }
      out := out + [(points[j].0, ColourOf(buckets, total, maxIterations, hsl, n))];
    }
  }

  /** Both passes of `points_with_colours_parallel`: the same first pass, then
      an order-preserving map of every sample to its colour. */
  method ColouringParallel(points: seq<Sample>, maxIterations: u64, hsl: HslToRgb)
    returns (out: seq<(Complex, Rgb)>)
    ensures out == RankColours(points, maxIterations, hsl)
  {
    var buckets := CountBuckets(points, maxIterations);
    var total := Sum(buckets);
    forall k | 0 <= k < |points| && points[k].1 < maxIterations
      ensures total > 0
      ensures BucketHue(buckets, total, points[k].1) == RankHue(points, maxIterations, points[k].1)
    {
      BucketHueIsRank(points, maxIterations, k);
    }
    out := seq(|points|, k requires 0 <= k < |points| =>
      (points[k].0, ColourOf(buckets, total, maxIterations, hsl, points[k].1)));
  }

  /** `points_with_colours`: the sequential evaluator, then the colouring. */
  method PointsWithColours(p: Plane, hsl: HslToRgb) returns (out: seq<(Complex, Rgb)>)
    ensures out == RankColours(Grid(p), p.maxIterations, hsl)
  {
    var points := PointsWithIterations(p);
    out := Colouring(points, p.maxIterations, hsl);
  }

  /** `points_with_colours_parallel`: the parallel evaluator, then the parallel
      colouring; the result is the sequential one. */
  method PointsWithColoursParallel(p: Plane, hsl: HslToRgb) returns (out: seq<(Complex, Rgb)>)
    ensures out == RankColours(Grid(p), p.maxIterations, hsl)
  {
    var points := PointsWithIterationsParallel(p);
    out := ColouringParallel(points, p.maxIterations, hsl);
  }

  /** What the coloured grid holds at cell (r, i): the cell's sample point,
      black when the point reaches the cap, and otherwise the colour of a hue
      in [0, 1). */
  lemma ColouredGridAt(p: Plane, hsl: HslToRgb, r: nat, i: nat)
    requires r < p.width && i < p.height
    ensures var out := RankColours(Grid(p), p.maxIterations, hsl);
            var z := SamplePoint(p, r, i);
            var n := Iterations(z, p.maxIterations);
            && |out| == p.width * p.height
            && Index(p, r, i) < |out|
            && out[Index(p, r, i)].0 == z
            && (n == p.maxIterations ==> out[Index(p, r, i)].1 == Black)
            && (n < p.maxIterations ==>
                  var hue := RankHue(Grid(p), p.maxIterations, n);
                  0.0 <= hue < 1.0 && out[Index(p, r, i)].1 == hsl(hue * 360.0, Saturation, Lightness))
  {
    GridAt(p, r, i);
    var z := SamplePoint(p, r, i);
    if Iterations(z, p.maxIterations) < p.maxIterations {
      HueRange(Grid(p), p.maxIterations, Index(p, r, i));
    }
  }
}
