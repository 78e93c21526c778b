// Convolution of a row of pixels with a kernel of odd width, as sums over the
// original row.

module KernelSpec {
  import opened Numbers
  import opened BlurSpec

  /** The weighted sum over the first n taps that lie between pixel first and the end of the row. */
  function TapSum(kern: seq<real>, s: Row, left: int, n: nat, first: nat, c: nat): real
    requires n <= |kern| && forall i :: 0 <= i < |s| ==> c < |s[i]|
  {
    if n == 0 then 0.0
    else
      TapSum(kern, s, left, n - 1, first, c)
      + if first <= left + n - 1 < |s| then kern[n - 1] * s[left + n - 1][c] else 0.0
  }

  /** The total weight of those taps, for a row of this size. */
  function TapWeight(kern: seq<real>, size: nat, left: int, n: nat, first: nat): real
    requires n <= |kern|
  {
    if n == 0 then 0.0
    else TapWeight(kern, size, left, n - 1, first) + if first <= left + n - 1 < size then kern[n - 1] else 0.0
  }

  /** The kernel does not fit around the pixel. */
  predicate Border(size: nat, radius: nat, i: nat) {
    i - radius < 0 || i + radius >= size
  }

  /** No border pixel's weights add up to nothing. */
  ghost predicate Divisible(kern: seq<real>, size: nat, radius: nat)
    requires |kern| == 2 * radius + 1
  {
    forall i: nat :: i < size && Border(size, radius, i) ==> TapWeight(kern, size, i - radius, |kern|, 1) != 0.0
  }

  /** A quotient, or what floating point makes of a division by zero. */
  function Quotient(x: real, weight: real, byZero: real -> real): real {
    if weight == 0.0 then byZero(x) else x / weight
  }

  /** The kernel sum around a pixel; in the border over what is present from column 1 on, divided by its weight. */
  function Average(kern: seq<real>, s: Row, radius: nat, i: nat, c: nat, byZero: real -> real): real
    requires |kern| == 2 * radius + 1 && i < |s| && forall j :: 0 <= j < |s| ==> c < |s[j]|
  {
    if Border(|s|, radius, i)
      then Quotient(TapSum(kern, s, i - radius, |kern|, 1, c), TapWeight(kern, |s|, i - radius, |kern|, 1), byZero)
    else TapSum(kern, s, i - radius, |kern|, 0, c)
  }

  function AveragePixel(kern: seq<real>, s: Row, radius: nat, channels: nat, i: nat,
                        byZero: real -> real): (pixel: seq<real>)
    requires |kern| == 2 * radius + 1 && Shaped(s, channels) && i < |s|
    ensures |pixel| == channels && forall c :: 0 <= c < channels ==> pixel[c] == Average(kern, s, radius, i, c, byZero)
  {
    seq(channels, c requires 0 <= c < channels => Average(kern, s, radius, i, c, byZero))
  }

  /** How far apart two pixels are, over the first n channels. */
  function Change(p: seq<real>, q: seq<real>, n: nat): (change: real)
    requires n <= |p| == |q|
    ensures change >= 0.0
  {
    if n == 0 then 0.0 else Change(p, q, n - 1) + Magnitude(p[n - 1] - q[n - 1])
  }

  /** The convolved pixel, or the original one where the change is outside the thresholds. */
  function Chosen(original: seq<real>, average: seq<real>, min: real, max: real): (pixel: seq<real>)
    requires |original| == |average|
    ensures |pixel| == |original|
  {
    var change := Change(original, average, |original|);
    if (min > 0.0 || max > 0.0) && (change < min || change > max) then original else average
  }

  function Convolved(kern: seq<real>, s: Row, radius: nat, channels: nat, min: real, max: real,
                     byZero: real -> real): (t: Row)
    requires |kern| == 2 * radius + 1 && Shaped(s, channels)
    ensures |t| == |s| && Shaped(t, channels)
    ensures forall i :: 0 <= i < |s| ==>
      t[i] == Chosen(s[i], AveragePixel(kern, s, radius, channels, i, byZero), min, max)
  {
    seq(|s|, i requires 0 <= i < |s| => Chosen(s[i], AveragePixel(kern, s, radius, channels, i, byZero), min, max))
  }

  lemma {:induction false} ChangeOfOne(p: seq<real>, q: seq<real>, n: nat, c: nat)
    requires n <= |p| == |q| && c < |p| && forall k :: 0 <= k < |p| && k != c ==> p[k] == q[k]
    ensures Change(p, q, n) == if c < n then Magnitude(p[c] - q[c]) else 0.0
  {
    if n > 0 { ChangeOfOne(p, q, n - 1, c); }
  }

  lemma {:induction false} ChangeOfAll(p: seq<real>, q: seq<real>, n: nat, x: real)
    requires n <= |p| == |q| && forall k :: 0 <= k < |p| ==> Magnitude(p[k] - q[k]) == x
    ensures Change(p, q, n) == n as real * x
  {
    if n > 0 { ChangeOfAll(p, q, n - 1, x); }
  }

  /** When the thresholds let a pixel change: without any, always; else when its change, over all channels together, is
      neither below the one nor above the other. */
  lemma {:induction false} ThresholdsDecide(p: seq<real>, q: seq<real>, min: real, max: real, c: nat)
    requires c < |p| == |q| && forall k :: 0 <= k < |p| && k != c ==> p[k] == q[k]
    ensures min <= 0.0 && max <= 0.0 ==> Chosen(p, q, min, max) == q
    ensures (min > 0.0 || max > 0.0) && min <= Magnitude(p[c] - q[c]) <= max ==> Chosen(p, q, min, max) == q
    ensures (min > 0.0 || max > 0.0) && !(min <= Magnitude(p[c] - q[c]) <= max) ==> Chosen(p, q, min, max) == p
  {
    ChangeOfOne(p, q, |p|, c);
  }

  // ---------- what it means ----------

  /** The plain kernel sum around a pixel. */
  function KernelSum(kern: seq<real>, s: Row, left: nat, n: nat, c: nat): real
    requires n <= |kern| && left + n <= |s| && forall i :: 0 <= i < |s| ==> c < |s[i]|
  {
    if n == 0 then 0.0 else KernelSum(kern, s, left, n - 1, c) + kern[n - 1] * s[left + n - 1][c]
  }

  lemma {:induction false} TapsAllPresent(kern: seq<real>, s: Row, left: nat, n: nat, c: nat)
    requires n <= |kern| && left + n <= |s| && forall i :: 0 <= i < |s| ==> c < |s[i]|
    ensures TapSum(kern, s, left, n, 0, c) == KernelSum(kern, s, left, n, c)
  {
    if n > 0 { TapsAllPresent(kern, s, left, n - 1, c); }
  }

  /** Without thresholds every pixel the kernel fits around becomes the plain kernel sum of the original row. */
  lemma {:induction false} InteriorIsKernelSum(
    kern: seq<real>, s: Row, radius: nat, channels: nat, i: nat, c: nat, byZero: real -> real)
    requires |kern| == 2 * radius + 1 && Shaped(s, channels) && radius <= i && i + radius < |s| && c < channels
    ensures Convolved(kern, s, radius, channels, 0.0, 0.0, byZero)[i][c] == KernelSum(kern, s, i - radius, |kern|, c)
  {
    TapsAllPresent(kern, s, i - radius, |kern|, c);
  }

  lemma {:induction false} KernelOfPixel(kern: seq<real>, s: Row, left: nat, n: nat, at: nat, c: nat, v: real)
    requires n <= |kern| && left + n <= |s| && OnePixel(s, at, c, v)
    ensures KernelSum(kern, s, left, n, c) == if left <= at < left + n then kern[at - left] * v else 0.0
  {
    if n > 0 { KernelOfPixel(kern, s, left, n - 1, at, c, v); }
  }

  /** Where a pixel goes without thresholds: to every pixel around which the kernel fits, by the tap that lies on it. */
  lemma {:induction false} OnePixelConvolved(kern: seq<real>, s: Row, radius: nat, channels: nat, i: nat, at: nat,
                                             c: nat, v: real, byZero: real -> real)
    requires |kern| == 2 * radius + 1 && Shaped(s, channels) && radius <= i && i + radius < |s| && c < channels
    requires OnePixel(s, at, c, v)
    ensures Convolved(kern, s, radius, channels, 0.0, 0.0, byZero)[i][c] ==
      if i - radius <= at <= i + radius then kern[at - (i - radius)] * v else 0.0
  {
    InteriorIsKernelSum(kern, s, radius, channels, i, c, byZero);
    KernelOfPixel(kern, s, i - radius, |kern|, at, c, v);
  }

  function Total(kern: seq<real>, n: nat): real
    requires n <= |kern|
  {
    if n == 0 then 0.0 else Total(kern, n - 1) + kern[n - 1]
  }

  lemma {:induction false} OneValue(kern: seq<real>, s: Row, left: int, n: nat, first: nat, c: nat, v: real)
    requires n <= |kern| && forall i :: 0 <= i < |s| ==> c < |s[i]| && s[i][c] == v
    ensures TapSum(kern, s, left, n, first, c) == TapWeight(kern, |s|, left, n, first) * v
    ensures 0 <= left && left + n <= |s| ==> TapWeight(kern, |s|, left, n, 0) == Total(kern, n)
  {
    if n > 0 { OneValue(kern, s, left, n - 1, first, c, v); }
  }

  ghost predicate OneColour(s: Row, colour: seq<real>) {
    forall i :: 0 <= i < |s| ==> s[i] == colour
  }

  /** A kernel of total one leaves a row of one colour as it is, border and thresholds included. */
  lemma {:induction false} OneColourStays(
    kern: seq<real>, s: Row, radius: nat, channels: nat, min: real, max: real, colour: seq<real>, byZero: real -> real)
    requires |kern| == 2 * radius + 1 && Divisible(kern, |s|, radius) && Shaped(s, channels)
    requires Total(kern, |kern|) == 1.0 && OneColour(s, colour)
    ensures Convolved(kern, s, radius, channels, min, max, byZero) == s
  {
    forall i | 0 <= i < |s| ensures AveragePixel(kern, s, radius, channels, i, byZero) == colour {
      assert s[i] == colour && |s[i]| == channels;
      forall c | 0 <= c < channels ensures Average(kern, s, radius, i, c, byZero) == colour[c] {
        AverageOfOne(kern, s, radius, i, c, colour[c], byZero);
      }
    }
  }

  lemma {:induction false} AverageOfOne(kern: seq<real>, s: Row, radius: nat, i: nat, c: nat, v: real,
                                        byZero: real -> real)
    requires |kern| == 2 * radius + 1 && Divisible(kern, |s|, radius) && Total(kern, |kern|) == 1.0 && i < |s|
    requires forall j :: 0 <= j < |s| ==> c < |s[j]| && s[j][c] == v
    ensures Average(kern, s, radius, i, c, byZero) == v
  {
    if Border(|s|, radius, i) {
      OneValue(kern, s, i - radius, |kern|, 1, c, v);
      var weight := TapWeight(kern, |s|, i - radius, |kern|, 1);
      assert weight != 0.0;
      Cancel(weight, v);
    } else {
      OneValue(kern, s, i - radius, |kern|, 0, c, v);
    }
  }

  lemma {:induction false} Cancel(weight: real, v: real)
    requires weight != 0.0
    ensures weight * v / weight == v
  {}

  /** In the border the first column counts for nothing, whatever its value. */
  lemma {:induction false} BorderSkipsFirstColumn(
    kern: seq<real>, s: Row, t: Row, radius: nat, i: nat, c: nat, byZero: real -> real)
    requires |kern| == 2 * radius + 1 && |s| == |t| && i < |s| && Border(|s|, radius, i)
    requires forall j :: 0 <= j < |s| ==> c < |s[j]| && c < |t[j]|
    requires forall j :: 0 < j < |s| ==> s[j] == t[j]
    ensures Average(kern, s, radius, i, c, byZero) == Average(kern, t, radius, i, c, byZero)
  {
    SameFromFirst(kern, s, t, i - radius, |kern|, c);
  }

  lemma {:induction false} SameFromFirst(kern: seq<real>, s: Row, t: Row, left: int, n: nat, c: nat)
    requires n <= |kern| && |s| == |t| && forall j :: 0 <= j < |s| ==> c < |s[j]| && c < |t[j]|
    requires forall j :: 0 < j < |s| ==> s[j] == t[j]
    ensures TapSum(kern, s, left, n, 1, c) == TapSum(kern, t, left, n, 1, c)
  {
    if n > 0 { SameFromFirst(kern, s, t, left, n - 1, c); }
  }

  /** What the border average is meant to be: the mean over all taps present, column 0 among them. */
  function PresentMean(kern: seq<real>, s: Row, radius: nat, i: nat, c: nat): real
    requires |kern| == 2 * radius + 1 && i < |s| && forall j :: 0 <= j < |s| ==> c < |s[j]|
    requires TapWeight(kern, |s|, i - radius, |kern|, 0) != 0.0
  {
    TapSum(kern, s, i - radius, |kern|, 0, c) / TapWeight(kern, |s|, i - radius, |kern|, 0)
  }

  lemma {:induction false} FirstColumnTap(kern: seq<real>, s: Row, left: int, n: nat, c: nat)
    requires n <= |kern| && |s| > 0 && forall j :: 0 <= j < |s| ==> c < |s[j]|
    ensures var weight := if left <= 0 < left + n then kern[-left] else 0.0;
            && TapWeight(kern, |s|, left, n, 0) == TapWeight(kern, |s|, left, n, 1) + weight
            && TapSum(kern, s, left, n, 0, c) == TapSum(kern, s, left, n, 1, c) + weight * s[0][c]
  {
    if n > 0 { FirstColumnTap(kern, s, left, n - 1, c); }
  }

  lemma {:induction false} SameMean(sum: real, weight: real, more: real, v: real)
    requires weight != 0.0 && weight + more != 0.0
    ensures sum / weight == (sum + more * v) / (weight + more) <==> more == 0.0 || v == sum / weight
  {
    var a, b := sum / weight, (sum + more * v) / (weight + more);
    assert sum == a * weight && sum + more * v == b * (weight + more);
    if a == b { assert more * v == more * a; }
    if v == a { assert (b - a) * (weight + more) == 0.0; }
  }

  /** Exactly when a border average is right all the same: where the kernel does not reach column 0 or gives it no
      weight, or column 0 holds just that average. */
  lemma {:induction false} BorderIsMean(kern: seq<real>, s: Row, radius: nat, i: nat, c: nat, byZero: real -> real)
    requires |kern| == 2 * radius + 1 && i < |s| && Border(|s|, radius, i) && forall j :: 0 <= j < |s| ==> c < |s[j]|
    requires TapWeight(kern, |s|, i - radius, |kern|, 0) != 0.0 && TapWeight(kern, |s|, i - radius, |kern|, 1) != 0.0
    ensures var average := Average(kern, s, radius, i, c, byZero);
            average == PresentMean(kern, s, radius, i, c) <==>
              i > radius || kern[radius - i] == 0.0 || s[0][c] == average
  {
    hide TapSum, TapWeight;
    var left: int := i - radius;
    FirstColumnTap(kern, s, left, |kern|, c);
    SameMean(TapSum(kern, s, left, |kern|, 1, c), TapWeight(kern, |s|, left, |kern|, 1),
             if left <= 0 then kern[-left] else 0.0, s[0][c]);
  }
}
