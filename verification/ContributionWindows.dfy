// Which source pixels contribute to an output pixel: placement, size and
// coverage of the window, for any filter that vanishes outside its own.

module ContributionWindows {
  import opened Numbers

  /** A filter with the half width beyond which it is taken to vanish, and the sharpening asked for. */
  datatype Details = Details(window: real, filter: real -> real, sharpenPercentGoal: real)

  const TONY := 0.00001

  function ScaleFactor(output: nat, input: nat): real
    requires output > 0 && input > 0
  {
    output as real / input as real
  }

  function DownscaleFactor(output: nat, input: nat): (f: real)
    requires output > 0 && input > 0
    ensures 0.0 < f <= 1.0
  {
    if ScaleFactor(output, input) < 1.0 then ScaleFactor(output, input) else 1.0
  }

  function HalfSourceWindow(d: Details, output: nat, input: nat): real
    requires output > 0 && input > 0
  {
    (d.window + 0.5) / DownscaleFactor(output, input)
  }

  function AllocatedSize(d: Details, output: nat, input: nat): int
    requires output > 0 && input > 0
  {
    Ceiling(2.0 * (HalfSourceWindow(d, output, input) - TONY)) + 1
  }

  /** The source position an output pixel is centred on. */
  function Center(u: nat, output: nat, input: nat): real
    requires output > 0 && input > 0
  {
    (u as real + 0.5) / ScaleFactor(output, input) - 0.5
  }

  function LeftEdge(d: Details, u: nat, output: nat, input: nat): int
    requires output > 0 && input > 0
  {
    Center(u, output, input).Floor - (AllocatedSize(d, output, input) - 1) / 2
  }

  function LeftPixel(d: Details, u: nat, output: nat, input: nat): int
    requires output > 0 && input > 0
  {
    Max(0, LeftEdge(d, u, output, input))
  }

  function RightPixel(d: Details, u: nat, output: nat, input: nat): int
    requires output > 0 && input > 0
  {
    Min(LeftEdge(d, u, output, input) + AllocatedSize(d, output, input) - 1, input - 1)
  }

  // ---------- arithmetic ----------

  lemma {:induction false} DivideBelow(x: real, y: real, s: real)
    requires s > 0.0 && x <= y
    ensures x / s <= y / s
  {
    var q, r := x / s, y / s;
    assert x == q * s && y == r * s;
    if q > r { MultiplyAbove(r, q, s); }
  }

  lemma {:induction false} MultiplyAbove(r: real, q: real, s: real)
    requires s > 0.0 && r < q
    ensures r * s < q * s
  {
    assert (q - r) * s > 0.0;
  }

  lemma {:induction false} MultiplyAtLeast(q: real, r: real, s: real)
    requires s > 0.0 && q <= r
    ensures q * s <= r * s
  {
    if q < r { MultiplyAbove(q, r, s); }
  }

  /** Centres lie between the outer edges of the first and the last source pixel. */
  lemma {:induction false} CenterInside(u: nat, output: nat, input: nat)
    requires output > 0 && input > 0 && u < output
    ensures -0.5 < Center(u, output, input) < input as real - 0.5
  {
    var s := ScaleFactor(output, input);
    var q := (u as real + 0.5) / s;
    assert s * input as real == output as real;
    assert q * s == u as real + 0.5;
    if q <= 0.0 { MultiplyAtLeast(q, 0.0, s); }
    if q >= input as real { MultiplyAtLeast(input as real, q, s); }
  }

  lemma {:induction false} CentersAscend(u: nat, v: nat, output: nat, input: nat)
    requires output > 0 && input > 0 && u <= v
    ensures Center(u, output, input) <= Center(v, output, input)
  {
    DivideBelow(u as real + 0.5, v as real + 0.5, ScaleFactor(output, input));
  }

  /** Centres seen from the other end of the line are the centres of the pixels from the other end, so the output lies
      over the source without being moved; lines of one size keep every pixel in its place. */
  lemma {:induction false} CentersMirror(u: nat, output: nat, input: nat)
    requires output > 0 && input > 0 && u < output
    ensures Center(output - 1 - u, output, input) == (input - 1) as real - Center(u, output, input)
    ensures output == input ==> Center(u, output, input) == u as real
  {
    var s := ScaleFactor(output, input);
    var x, y := u as real + 0.5, (output - 1 - u) as real + 0.5;
    assert s * input as real == output as real;
    assert x + y == output as real;
    QuotientsAdd(x, y, s, input as real);
  }

  lemma {:induction false} QuotientsAdd(x: real, y: real, s: real, n: real)
    requires s > 0.0 && x + y == s * n
    ensures x / s + y / s == n
  {
    var p, q := x / s, y / s;
    assert p * s == x && q * s == y;
    assert (p + q - n) * s == 0.0;
  }

  /** Half of the allocation, rounded either way, reaches the filter's window as scaled to the source. */
  lemma {:induction false} AllocationReaches(d: Details, output: nat, input: nat)
    requires output > 0 && input > 0 && d.window >= 0.0
    ensures var n, reach := AllocatedSize(d, output, input) - 1, d.window / DownscaleFactor(output, input);
            n >= 1 && n > 2 * reach.Floor && n as real >= 2.0 * reach + 1.0 - 2.0 * TONY && reach >= 0.0
  {
    var f := DownscaleFactor(output, input);
    var reach, half := d.window / f, 0.5 / f;
    DivideBelow(0.0, d.window, f);
    assert half * f == 0.5;
    if half < 0.5 { MultiplyAbove(half, 0.5, f); }
    assert HalfSourceWindow(d, output, input) == reach + half by { SumOverDivisor(d.window, 0.5, f); }
  }

  lemma {:induction false} SumOverDivisor(a: real, b: real, f: real)
    requires f > 0.0
    ensures (a + b) / f == a / f + b / f
  {}

  // ---------- the windows ----------

  /** Every window is nonempty, inside the source and no larger than the allocation. */
  lemma {:induction false} WindowFits(d: Details, u: nat, output: nat, input: nat)
    requires output > 0 && input > 0 && u < output && d.window >= 0.0
    ensures 0 <= LeftPixel(d, u, output, input) <= RightPixel(d, u, output, input) < input
    ensures RightPixel(d, u, output, input) - LeftPixel(d, u, output, input) + 1 <= AllocatedSize(d, output, input)
  {
    CenterInside(u, output, input);
    AllocationReaches(d, output, input);
  }

  /** A source pixel whose scaled distance lies within the filter's window is in the contribution window. */
  lemma {:induction false} WindowCovers(d: Details, u: nat, output: nat, input: nat, ix: nat)
    requires output > 0 && input > 0 && u < output && d.window >= 0.0 && ix < input
    requires -d.window <= DownscaleFactor(output, input) * (ix as real - Center(u, output, input)) <= d.window
    ensures LeftPixel(d, u, output, input) <= ix <= RightPixel(d, u, output, input)
  {
    hide Center, AllocatedSize, DownscaleFactor;
    var f, c := DownscaleFactor(output, input), Center(u, output, input);
    var reach := d.window / f;
    AllocationReaches(d, output, input);
    ScaledWithin(ix as real - c, d.window, f);
    PixelWithin(c, ix, reach, AllocatedSize(d, output, input) - 1);
  }

  lemma {:induction false} ScaledWithin(distance: real, window: real, f: real)
    requires f > 0.0 && -window <= f * distance <= window
    ensures -(window / f) <= distance <= window / f
  {
    var reach := window / f;
    assert reach * f == window;
    if distance > reach { MultiplyAbove(reach, distance, f); }
    if distance < -reach { MultiplyAbove(distance, -reach, f); }
  }

  /** A pixel within reach of the centre is within half the allocation of the centre's pixel, rounded down on
      the left and up on the right. */
  lemma {:induction false} PixelWithin(c: real, ix: int, reach: real, n: int)
    requires -reach <= ix as real - c <= reach && reach >= 0.0 && n > 2 * reach.Floor
    ensures c.Floor - n / 2 <= ix <= c.Floor - n / 2 + n
  {
    assert c.Floor - ix <= reach.Floor;
    assert ix - c.Floor <= reach.Floor + 1;
    RightRoundsUp(n, reach.Floor);
  }

  lemma {:induction false} RightRoundsUp(n: int, k: int)
    requires n > 2 * k
    ensures n - n / 2 >= k + 1
  {}

  /** Neither end of the untrimmed windows ever moves back. */
  lemma {:induction false} WindowsAscend(d: Details, u: nat, v: nat, output: nat, input: nat)
    requires output > 0 && input > 0 && u <= v
    ensures LeftPixel(d, u, output, input) <= LeftPixel(d, v, output, input)
    ensures RightPixel(d, u, output, input) <= RightPixel(d, v, output, input)
  {
    CentersAscend(u, v, output, input);
  }
}
