/**
 The escape-time predicate of a Mandelbrot point (`MandelbrotPoint::iterations`).

 Floating-point complex numbers are modelled by exact reals, so z*z + c is
 computed without rounding: every fact proved here holds in that exact model.
 */
module Escape {

  /** Unsigned 64-bit integers, the type of iteration counts and grid sizes. */
  type u64 = x: int | 0 <= x < 0x1_0000_0000_0000_0000

  const U64_MAX: u64 := 0xFFFF_FFFF_FFFF_FFFF

  /** A complex number with exact real parts. */
  datatype Complex = Complex(re: real, im: real)

  const Zero: Complex := Complex(0.0, 0.0)

  /** The orbit stays "inside" while |z|^2 <= EscapeRadiusSqr. */
  const EscapeRadiusSqr: real := 4.0

  /** Squared magnitude, compared against 4 instead of taking a square root. */
  function NormSqr(z: Complex): real {
    z.re * z.re + z.im * z.im
  }

  /** Whether z is still within the escape radius. */
  predicate Inside(z: Complex) {
    NormSqr(z) <= EscapeRadiusSqr
  }

  /** One step of the quadratic map, z*z + c written out componentwise:
      (x + iy)^2 = (x^2 - y^2) + i(2xy). */
  function Step(z: Complex, c: Complex): Complex {
    Complex(z.re * z.re - z.im * z.im + c.re, 2.0 * z.re * z.im + c.im)
  }

  /** The k-th element of the orbit of c: z_0 = 0, z_{k+1} = z_k^2 + c. */
  function Orbit(c: Complex, k: nat): Complex {
    if k == 0 then Zero else Step(Orbit(c, k - 1), c)
  }

  /** The characterisation of an escape time n for c under the cap maxIterations:
      the orbit is inside for every step before n, and n is either the cap or
      the first step at which the orbit is outside. */
  ghost predicate IsEscapeTime(c: Complex, maxIterations: u64, n: int) {
    && 0 <= n <= maxIterations
    && (forall k :: 0 <= k < n ==> Inside(Orbit(c, k)))
    && (n < maxIterations ==> !Inside(Orbit(c, n)))
  }

  /** The loop of `iterations`, from a state (z, n) that lies on the orbit of c. */
  function Iterate(c: Complex, z: Complex, n: nat, maxIterations: u64): (r: u64)
    requires n <= maxIterations
    requires z == Orbit(c, n)
    ensures n <= r <= maxIterations
    ensures forall k :: n <= k < r ==> Inside(Orbit(c, k))
    ensures r < maxIterations ==> !Inside(Orbit(c, r))
    decreases maxIterations - n
  {
    if Inside(z) && n < maxIterations then
      Iterate(c, Step(z, c), n + 1, maxIterations)
    else
      n
  }

  /** `MandelbrotPoint::iterations`: the number of steps taken before |z|^2 > 4,
      capped at maxIterations. */
  function Iterations(c: Complex, maxIterations: u64): (n: u64)
    ensures IsEscapeTime(c, maxIterations, n)
  {
    Iterate(c, Zero, 0, maxIterations)
  }

  /** The characterisation determines the escape time: Iterations is the only
      value that satisfies it. */
  lemma EscapeTimeUnique(c: Complex, maxIterations: u64, n: int)
    ensures IsEscapeTime(c, maxIterations, n) <==> n == Iterations(c, maxIterations)
  {
  }

  /** A point escapes (count below the cap) exactly when its orbit leaves the
      radius-2 disc at some step before the cap. */
  lemma EscapesIff(c: Complex, maxIterations: u64)
    ensures Iterations(c, maxIterations) < maxIterations
            <==> exists k :: 0 <= k < maxIterations && !Inside(Orbit(c, k))
  {
    var n := Iterations(c, maxIterations);
    if n < maxIterations {
      assert !Inside(Orbit(c, n));
    }
  }

  /** Lowering the cap truncates the count: with m <= M, the count under m is
      the count under M, clipped to m. */
  lemma CapTruncates(c: Complex, m: u64, bigM: u64)
    requires m <= bigM
    ensures Iterations(c, m) == if Iterations(c, bigM) < m then Iterations(c, bigM) else m
  {
  }

  /** With a cap of zero the loop never runs. */
  lemma ZeroCap(c: Complex)
    ensures Iterations(c, 0) == 0
  {
  }

  lemma {:induction false} OrbitOfOrigin(k: nat)
    ensures Orbit(Zero, k) == Zero
  {
    if k > 0 {
      OrbitOfOrigin(k - 1);
    }
  }

  /** The origin never escapes, whatever the cap. */
  lemma OriginNeverEscapes(maxIterations: u64)
    ensures Iterations(Zero, maxIterations) == maxIterations
  {
    var n := Iterations(Zero, maxIterations);
    OrbitOfOrigin(n);
  }

  /** With a positive cap the loop always runs once, because z_0 = 0 is inside. */
  lemma TakesAStep(c: Complex, maxIterations: u64)
    requires maxIterations >= 1
    ensures Iterations(c, maxIterations) >= 1
  {
    assert Inside(Zero);
    assert Iterations(c, maxIterations) == Iterate(c, Zero, 0, maxIterations);
  }

  /** A point outside the radius-2 disc is counted exactly once: z_0 = 0 is
      inside, z_1 = c is outside. */
  lemma FarPointEscapesAtOne(c: Complex, maxIterations: u64)
    requires !Inside(c)
    requires maxIterations >= 1
    ensures Iterations(c, maxIterations) == 1
  {
    FirstSteps(c);
    assert Iterations(c, maxIterations) == Iterate(c, Zero, 0, maxIterations);
    assert Iterate(c, Zero, 0, maxIterations) == Iterate(c, c, 1, maxIterations);
    assert Iterate(c, c, 1, maxIterations) == 1;
  }

  /** z_0 = 0 is inside and z_1 = c. */
  lemma FirstSteps(c: Complex)
    ensures Orbit(c, 0) == Zero && Inside(Zero)
    ensures Orbit(c, 1) == c
  {
    assert Orbit(c, 1) == Step(Zero, c);
  }

  lemma SquareBelow(x: real, b: real)
    requires -b <= x <= b
    ensures 0.0 <= x * x <= b * b
  {
    assert 0.0 <= (b - x) * (b + x);
  }

  /** One step of the map keeps a real point of [-b, b] real and in [-b, b]. */
  lemma RealStep(z: Complex, c: Complex, b: real)
    requires z.im == 0.0 && c.im == 0.0
    requires -b <= z.re <= b
    requires -b <= c.re && b * b + c.re <= b
    ensures Step(z, c).im == 0.0
    ensures -b <= Step(z, c).re <= b
  {
    SquareBelow(z.re, b);
    assert Step(z, c) == Complex(z.re * z.re + c.re, 0.0);
  }

  /** For a real c, an interval [-b, b] that the map x -> x^2 + c sends into
      itself keeps the whole orbit real and inside it. */
  lemma {:induction false} RealOrbitStaysIn(c: Complex, b: real, k: nat)
    requires c.im == 0.0
    requires 0.0 <= b && -b <= c.re && b * b + c.re <= b
    ensures Orbit(c, k).im == 0.0
    ensures -b <= Orbit(c, k).re <= b
  {
    if k > 0 {
      RealOrbitStaysIn(c, b, k - 1);
      RealStep(Orbit(c, k - 1), c, b);
    }
  }

  lemma RealInside(z: Complex, b: real)
    requires z.im == 0.0
    requires 0.0 <= b <= 2.0 && -b <= z.re <= b
    ensures Inside(z)
  {
    SquareBelow(z.re, b);
    SquareBelow(b, 2.0);
  }

  /** Such a point never escapes when the interval lies inside the radius-2 disc. */
  lemma RealPointNeverEscapes(c: Complex, b: real, maxIterations: u64)
    requires c.im == 0.0
    requires 0.0 <= b <= 2.0 && -b <= c.re && b * b + c.re <= b
    ensures Iterations(c, maxIterations) == maxIterations
  {
    var n := Iterations(c, maxIterations);
    if n < maxIterations {
      RealOrbitStaysIn(c, b, n);
      RealInside(Orbit(c, n), b);
    }
  }
}
