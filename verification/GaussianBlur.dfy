// The approximate Gaussian blur: three box blurs, or for an even diameter two
// blurs of even width and a box blur one wider.

module GaussianBlur {
  import opened Numbers
  import opened Sequences
  import opened BlurSpec
  import opened BoxBlur

  /** The diameter of the boxes, never more than half the row; with a sigma the blur takes it is zero exactly for rows
      of one or two pixels. */
  function Diameter(sigma: real, width: nat): (d: nat)
    requires sigma >= 0.0 && width >= 1
    ensures d <= (width - 1) / 2 && (sigma >= 2.0 ==> (d == 0 <==> width <= 2))
  {
    Min((1.8799712059732503768118239636082839397552400554574537 * sigma + 0.5).Floor, (width - 1) / 2)
  }

  /** Unless the row is too short for it, the diameter is the number of pixels nearest to three quarters of sigma times
      the root of twice pi: in squares, 9 pi / 8 of sigma's, with pi to fourteen places. */
  lemma {:induction false} DiameterIsNearest(sigma: real, width: nat)
    requires sigma >= 0.0 && width >= 1
    ensures var d := Diameter(sigma, width) as real;
            && (d > 0.0 ==> (d - 0.5) * (d - 0.5) <= 1.125 * 3.14159265358980 * (sigma * sigma))
            && (Diameter(sigma, width) < (width - 1) / 2 ==>
                  1.125 * 3.14159265358979 * (sigma * sigma) < (d + 0.5) * (d + 0.5))
  {
    hide *;
    var x := 1.8799712059732503768118239636082839397552400554574537 * sigma;
    ScaleSquared(sigma, x);
    DiameterIs(sigma, width, x);
    RoundedSquare(x, (width - 1) / 2);
  }

  lemma {:induction false} DiameterIs(sigma: real, width: nat, x: real)
    requires sigma >= 0.0 && width >= 1 && x == 1.8799712059732503768118239636082839397552400554574537 * sigma
    ensures x >= 0.0 && Diameter(sigma, width) == Min((x + 0.5).Floor, (width - 1) / 2)
  {}

  lemma {:induction false} RoundedSquare(x: real, most: nat)
    requires x >= 0.0
    ensures var d := Min((x + 0.5).Floor, most);
            && (d > 0 ==> (d as real - 0.5) * (d as real - 0.5) <= x * x)
            && (d < most ==> x * x < (d as real + 0.5) * (d as real + 0.5))
  {
    var n := (x + 0.5).Floor;
    var d := Min(n, most);
    if d > 0 { SquareOrder(d as real - 0.5, x); }
    if d < most { SquareOrder(x, d as real + 0.5); }
  }

  lemma {:induction false} ScaleSquared(sigma: real, x: real)
    requires sigma >= 0.0 && x == 1.8799712059732503768118239636082839397552400554574537 * sigma
    ensures 1.125 * 3.14159265358979 * (sigma * sigma) <= x * x <= 1.125 * 3.14159265358980 * (sigma * sigma)
  {
    var c := 1.8799712059732503768118239636082839397552400554574537;
    assert x * x == c * c * (sigma * sigma);
    Between(1.125 * 3.14159265358979, c * c, 1.125 * 3.14159265358980, sigma * sigma);
  }

  lemma {:induction false} Between(a: real, b: real, c: real, x: real)
    requires a <= b <= c && x >= 0.0
    ensures a * x <= b * x <= c * x
  {
    assert (b - a) * x >= 0.0 && (c - b) * x >= 0.0;
  }

  lemma {:induction false} SquareOrder(x: real, y: real)
    requires 0.0 <= x <= y
    ensures x * x <= y * y && (x < y ==> x * x < y * y)
  {
    assert y * y - x * x == (y - x) * (y + x);
    if x < y { PositiveProduct(y - x, y + x); }
  }

  lemma {:induction false} PositiveProduct(a: real, b: real)
    requires a > 0.0 && b > 0.0
    ensures a * b > 0.0
  {}

  /** The floats a work buffer must hold. */
  function Required(sigma: real, width: nat): nat
    requires sigma >= 0.0 && width >= 1
  {
    Diameter(sigma, width) * 2 + 12
  }

  /** What the blur leaves. For an even diameter its second step starts with a pixel of the first step's row,
      the last one that lay in the work buffer's last slot. */
  function Gaussian(s: Row, d: nat, channels: nat): (t: Row)
    requires Shaped(s, channels) && 1 <= d <= (|s| - 1) / 2
    ensures |t| == |s| && Shaped(t, channels)
  {
    if d % 2 == 1 then Passes(s, d / 2, channels, 3)
    else
      var first := HalfEndsBlurred(s, d / 2, channels);
      var second := HalfEndsBlurred(first, d / 2, channels);
      BoxBlurred(Aligned(second, 1, first[LastInSlot(|s|, d / 2 + 2)]), d / 2 + 1, channels)
  }

  /** The index of the last pixel delayed in the last of this many slots. */
  function LastInSlot(n: nat, slots: nat): (i: nat)
    requires 0 < slots <= n
    ensures i < n
  {
    LastThere(n, slots);
    n / slots * slots - 1
  }

  /** The declared buffer has the slots of all three blurs, for up to four channels. */
  lemma {:induction false} SlotsSuffice(sigma: real, width: nat, elements: nat, channels: nat)
    requires sigma >= 0.0 && width >= 1 && 1 <= channels <= 4 && Required(sigma, width) <= elements
    ensures elements / channels >= Diameter(sigma, width) / 2 + 2
  {
    DividedBy(elements, channels);
  }

  lemma {:induction false} DividedBy(n: nat, d: nat)
    requires 1 <= d <= 4
    ensures n / d >= n / 4
  {}

  /** The blur of one row, in place. */
  method GaussianRow(row: array2<real>, sigma: real, buffer: array2<real>, elements: nat) returns (ok: bool)
    requires row != buffer && 1 <= row.Length1 == buffer.Length1 <= 4 && row.Length0 >= 3
    requires elements / row.Length1 <= buffer.Length0
    modifies row, buffer
    ensures ok <==> sigma >= 2.0 && Required(sigma, row.Length0) <= elements
    ensures !ok ==> Pixels(row) == old(Pixels(row))
    ensures ok ==> Pixels(row) == Gaussian(old(Pixels(row)), Diameter(sigma, row.Length0), row.Length1)
  {
    hide *;
    if sigma < 2.0 { return false; }
    if Required(sigma, row.Length0) > elements { return false; }
    ghost var s, stale := Pixels(row), Pixels(buffer);
    var d: nat := Diameter(sigma, row.Length0);
    SlotsSuffice(sigma, row.Length0, elements, row.Length1);
    if d % 2 > 0 {
      BoxBlurRow(row, d / 2, 3, buffer);
      OddGaussian(s, d, row.Length1);
    } else {
      ok := MisalignedRow(row, d / 2, -1, buffer);
      ok := MisalignedRow(row, d / 2, 1, buffer);
      BoxBlurRow(row, d / 2 + 1, 1, buffer);
      EvenGaussian(s, d, row.Length1, stale[d / 2 + 1]);
    }
    return true;
  }

  lemma {:induction false} OddGaussian(s: Row, d: nat, channels: nat)
    requires Shaped(s, channels) && 1 <= d <= (|s| - 1) / 2 && d % 2 == 1
    ensures Gaussian(s, d, channels) == Passes(s, d / 2, channels, 3)
  {}

  /** The three steps for an even diameter, from the row and whatever the work buffer held. */
  lemma {:induction false} EvenGaussian(s: Row, d: nat, channels: nat, stale: seq<real>)
    requires Shaped(s, channels) && 1 <= d <= (|s| - 1) / 2 && d % 2 == 0
    ensures var r := d / 2;
            var first := Aligned(HalfEndsBlurred(s, r, channels), -1, stale);
            var left := Resident(HalfEndsBlurred(s, r, channels), stale, |s|, r + 2);
            && Shaped(first, channels)
            && Gaussian(s, d, channels) ==
              Passes(Aligned(HalfEndsBlurred(first, r, channels), 1, left), r + 1, channels, 1)
  {
    var first := HalfEndsBlurred(s, d / 2, channels);
    OnePass(Aligned(HalfEndsBlurred(first, d / 2, channels), 1, first[LastInSlot(|s|, d / 2 + 2)]), d / 2 + 1,
            channels);
  }

  lemma {:induction false} OnePass(s: Row, radius: nat, channels: nat)
    requires Shaped(s, channels)
    ensures Passes(s, radius, channels, 1) == BoxBlurred(s, radius, channels)
  {
    assert Passes(s, radius, channels, 0) == s;
  }

  lemma {:induction false} HalfEndsWithin(s: Row, radius: nat, channels: nat, lo: real, hi: real)
    requires Within(s, channels, lo, hi) && 1 <= radius <= |s|
    ensures Within(HalfEndsBlurred(s, radius, channels), channels, lo, hi)
  {
    forall i, c | 0 <= i < |s| && 0 <= c < channels ensures lo <= HalfEndsMean(s, radius, i, c) <= hi {
      HalfEndsMeanWithin(s, radius, channels, i, c, lo, hi);
    }
  }

  lemma {:induction false} ClippedWithin(s: Row, from: int, until: int, channels: nat, c: nat, lo: real, hi: real)
    requires Within(s, channels, lo, hi) && from <= until && c < channels
    ensures lo * ClippedSize(s, from, until) as real <= Clipped(s, from, until, c)
    ensures Clipped(s, from, until, c) <= hi * ClippedSize(s, from, until) as real
  {
    if Lo(from) < Min(until, |s|) {
      SumWithin(s, channels, Lo(from), Min(until, |s|), c, lo, hi);
    }
  }

  lemma {:induction false} HalfEndsMeanWithin(s: Row, radius: nat, channels: nat, i: nat, c: nat, lo: real, hi: real)
    requires Within(s, channels, lo, hi) && 1 <= radius <= |s| && i < |s| && c < channels
    ensures lo <= HalfEndsMean(s, radius, i, c) <= hi
  {
    hide Clipped, ClippedSize;
    HalfCountSlides(s, i, radius);
    var a, b := ClippedSize(s, i - radius, i + radius), ClippedSize(s, i - radius + 1, i + radius + 1);
    var x, y := Clipped(s, i - radius, i + radius, c), Clipped(s, i - radius + 1, i + radius + 1, c);
    ClippedWithin(s, i - radius, i + radius, channels, c, lo, hi);
    ClippedWithin(s, i - radius + 1, i + radius + 1, channels, c, lo, hi);
    HalvedMean(x, y, a, b, lo, hi);
  }

  lemma {:induction false} HalvedMean(x: real, y: real, a: nat, b: nat, lo: real, hi: real)
    requires a + b > 0 && lo * a as real <= x <= hi * a as real && lo * b as real <= y <= hi * b as real
    ensures lo <= ((x + y) * 0.5) / ((a + b) as real * 0.5) <= hi
  {
    assert lo * (a + b) as real == lo * a as real + lo * b as real;
    assert hi * (a + b) as real == hi * a as real + hi * b as real;
    MeanWithin(x + y, a + b, lo, hi);
    SameQuotient(x + y, (a + b) as real);
  }

  lemma {:induction false} SameQuotient(x: real, n: real)
    requires n > 0.0
    ensures (x * 0.5) / (n * 0.5) == x / n
  {
    var q := x / n;
    assert q * n == x;
    assert q * (n * 0.5) == x * 0.5;
  }

  /** No channel leaves the range it had, stale pixel and all; so a row of one colour keeps it. */
  lemma {:induction false} GaussianWithin(s: Row, d: nat, channels: nat, lo: real, hi: real)
    requires Within(s, channels, lo, hi) && 1 <= d <= (|s| - 1) / 2
    ensures Within(Gaussian(s, d, channels), channels, lo, hi)
  {
    hide HalfEndsBlurred, Passes, BoxBlurred;
    if d % 2 == 1 {
      PassesWithin(s, d / 2, channels, 3, lo, hi);
    } else {
      var first := HalfEndsBlurred(s, d / 2, channels);
      HalfEndsWithin(s, d / 2, channels, lo, hi);
      HalfEndsWithin(first, d / 2, channels, lo, hi);
      var moved := Aligned(HalfEndsBlurred(first, d / 2, channels), 1, first[LastInSlot(|s|, d / 2 + 2)]);
      PassesWithin(moved, d / 2 + 1, channels, 1, lo, hi);
      OnePass(moved, d / 2 + 1, channels);
    }
  }

  lemma {:induction false} PassesMirror(s: Row, radius: nat, channels: nat, passes: nat)
    requires Shaped(s, channels)
    ensures Passes(Reversed(s), radius, channels, passes) == Reversed(Passes(s, radius, channels, passes))
  {
    if passes > 0 {
      PassesMirror(s, radius, channels, passes - 1);
      BoxBlurMirrors(Passes(s, radius, channels, passes - 1), radius, channels);
    }
  }

  /** For an odd diameter the blur has no sense of direction. */
  lemma {:induction false} OddGaussianMirrors(s: Row, d: nat, channels: nat)
    requires Shaped(s, channels) && 1 <= d <= (|s| - 1) / 2 && d % 2 == 1
    ensures Gaussian(Reversed(s), d, channels) == Reversed(Gaussian(s, d, channels))
  {
    PassesMirror(s, d / 2, channels, 3);
  }
}
