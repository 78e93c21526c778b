// What a blur of one row of pixels means: window sums of the original row,
// clipped at its ends.

module BlurSpec {
  import opened Numbers
  import opened Sequences

  /** A row of pixels, every pixel the same number of channels. */
  type Row = seq<seq<real>>

  predicate Shaped(s: Row, channels: nat) {
    forall i :: 0 <= i < |s| ==> |s[i]| == channels
  }

  /** The sum of one channel over pixels lo..hi, hi excluded. */
  function Sum(s: Row, lo: nat, hi: nat, c: nat): real
    requires lo <= hi <= |s| && forall i :: 0 <= i < |s| ==> c < |s[i]|
    decreases hi
  {
    if lo == hi then 0.0 else Sum(s, lo, hi - 1, c) + s[hi - 1][c]
  }

  lemma {:induction false} SumDropsFirst(s: Row, lo: nat, hi: nat, c: nat)
    requires lo < hi <= |s| && forall i :: 0 <= i < |s| ==> c < |s[i]|
    ensures Sum(s, lo, hi, c) == s[lo][c] + Sum(s, lo + 1, hi, c)
    decreases hi
  {
    if lo + 1 < hi { SumDropsFirst(s, lo, hi - 1, c); }
  }

  // ---------- windows clipped to the row ----------

  function Lo(from: int): nat {
    if from < 0 then 0 else from
  }

  /** The sum over pixels from..until, until excluded, that lie in the row. */
  function Clipped(s: Row, from: int, until: int, c: nat): real
    requires from <= until && forall i :: 0 <= i < |s| ==> c < |s[i]|
  {
    if Lo(from) < Min(until, |s|) then Sum(s, Lo(from), Min(until, |s|), c) else 0.0
  }

  function ClippedSize(s: Row, from: int, until: int): nat {
    Max(0, Min(until, |s|) - Lo(from))
  }

  /** Moving both ends of a clipped window up by one. */
  lemma {:induction false} SlideClipped(s: Row, from: int, until: int, c: nat)
    requires from < until && from <= |s| && 0 <= until && forall i :: 0 <= i < |s| ==> c < |s[i]|
    ensures Clipped(s, from + 1, until + 1, c) ==
            Clipped(s, from, until, c) - (if from >= 0 && from < |s| then s[from][c] else 0.0)
                                       + (if until < |s| then s[until][c] else 0.0)
    ensures ClippedSize(s, from + 1, until + 1) ==
            ClippedSize(s, from, until) - (if from >= 0 && from < |s| then 1 else 0) + (if until < |s| then 1 else 0)
  {
    var hi := Min(until, |s|);
    if 0 <= from < |s| {
      SumDropsFirst(s, from, hi, c);
      assert Clipped(s, from, hi, c) == Sum(s, from, hi, c);
      assert Clipped(s, from + 1, hi, c) == Sum(s, from + 1, hi, c);
    }
    if until < |s| {
      assert Sum(s, Lo(from + 1), until + 1, c) == Sum(s, Lo(from + 1), until, c) + s[until][c];
    }
  }

  // ---------- the blurs ----------

  /** The mean of the original pixels no further than radius away. */
  function BoxMean(s: Row, radius: nat, i: nat, c: nat): real
    requires i < |s| && forall j :: 0 <= j < |s| ==> c < |s[j]|
  {
    Clipped(s, i - radius, i + radius + 1, c) / ClippedSize(s, i - radius, i + radius + 1) as real
  }

  function BoxBlurred(s: Row, radius: nat, channels: nat): (t: Row)
    requires Shaped(s, channels)
    ensures |t| == |s| && Shaped(t, channels)
    ensures forall i, c :: 0 <= i < |s| && 0 <= c < channels ==> t[i][c] == BoxMean(s, radius, i, c)
  {
    seq(|s|, i requires 0 <= i < |s| => seq(channels, c requires 0 <= c < channels => BoxMean(s, radius, i, c)))
  }

  function Passes(s: Row, radius: nat, channels: nat, passes: nat): (t: Row)
    requires Shaped(s, channels)
    ensures |t| == |s| && Shaped(t, channels)
  {
    if passes == 0 then s else BoxBlurred(Passes(s, radius, channels, passes - 1), radius, channels)
  }

  /** Twice the mean's numerator: the window reaching one further left plus the one reaching one further right. */
  function TwoBoxes(s: Row, radius: nat, i: int, c: nat): real
    requires radius >= 1 && forall j :: 0 <= j < |s| ==> c < |s[j]|
  {
    Clipped(s, i - radius, i + radius, c) + Clipped(s, i - radius + 1, i + radius + 1, c)
  }

  function TwoSizes(s: Row, radius: nat, i: int): nat {
    ClippedSize(s, i - radius, i + radius) + ClippedSize(s, i - radius + 1, i + radius + 1)
  }

  /** The mean over the window whose two end pixels count half. */
  function HalfEndsMean(s: Row, radius: nat, i: nat, c: nat): real
    requires radius >= 1 && i < |s| && forall j :: 0 <= j < |s| ==> c < |s[j]|
  {
    (TwoBoxes(s, radius, i, c) * 0.5) / (TwoSizes(s, radius, i) as real * 0.5)
  }

  function HalfEndsBlurred(s: Row, radius: nat, channels: nat): (t: Row)
    requires radius >= 1 && Shaped(s, channels)
    ensures |t| == |s| && Shaped(t, channels)
    ensures forall i, c :: 0 <= i < |s| && 0 <= c < channels ==> t[i][c] == HalfEndsMean(s, radius, i, c)
  {
    seq(|s|, i requires 0 <= i < |s| => seq(channels, c requires 0 <= c < channels => HalfEndsMean(s, radius, i, c)))
  }

  /** The window sum as pixel weights: half at either end, one between. */
  lemma {:induction false} HalfEndsWeights(s: Row, radius: nat, i: nat, c: nat)
    requires radius >= 1 && radius <= i && i + radius < |s| && forall j :: 0 <= j < |s| ==> c < |s[j]|
    ensures TwoBoxes(s, radius, i, c) * 0.5 ==
            0.5 * s[i - radius][c] + Sum(s, i - radius + 1, i + radius, c) + 0.5 * s[i + radius][c]
    ensures TwoSizes(s, radius, i) == 4 * radius
  {
    SumDropsFirst(s, i - radius, i + radius, c);
  }

  // ---------- a single pixel ----------

  /** One channel of a row is nothing but in one pixel. */
  ghost predicate OnePixel(s: Row, at: nat, c: nat, v: real) {
    forall j :: 0 <= j < |s| ==> c < |s[j]| && s[j][c] == if j == at then v else 0.0
  }

  lemma {:induction false} SumOfPixel(s: Row, lo: nat, hi: nat, at: nat, c: nat, v: real)
    requires OnePixel(s, at, c, v) && lo <= hi <= |s|
    ensures Sum(s, lo, hi, c) == if lo <= at < hi then v else 0.0
    decreases hi
  {
    if lo < hi { SumOfPixel(s, lo, hi - 1, at, c, v); }
  }

  /** Where a pixel goes: to every pixel no further than radius away, divided there by the number of pixels that are no
      further away from that one. */
  lemma {:induction false} OnePixelSpreads(s: Row, radius: nat, at: nat, c: nat, v: real, i: nat)
    requires OnePixel(s, at, c, v) && at < |s| && i < |s|
    ensures BoxMean(s, radius, i, c) ==
      if -(radius as int) <= i - at <= radius
      then v / (Min(radius, i) + 1 + Min(radius, |s| - 1 - i)) as real else 0.0
  {
    SumOfPixel(s, Lo(i - radius), Min(i + radius + 1, |s|), at, c, v);
  }

  // ---------- what a mean cannot do ----------

  ghost predicate Within(s: Row, channels: nat, lo: real, hi: real) {
    Shaped(s, channels) && forall i, c :: 0 <= i < |s| && 0 <= c < channels ==> lo <= s[i][c] <= hi
  }

  lemma {:induction false} SumWithin(s: Row, channels: nat, from: nat, until: nat, c: nat, lo: real, hi: real)
    requires Within(s, channels, lo, hi) && from <= until <= |s| && c < channels
    ensures lo * (until - from) as real <= Sum(s, from, until, c) <= hi * (until - from) as real
    decreases until
  {
    if from < until {
      SumWithin(s, channels, from, until - 1, c, lo, hi);
      assert lo * (until - from) as real == lo * (until - from - 1) as real + lo;
      assert hi * (until - from) as real == hi * (until - from - 1) as real + hi;
    }
  }

  lemma {:induction false} MeanWithin(sum: real, size: nat, lo: real, hi: real)
    requires size > 0 && lo * size as real <= sum <= hi * size as real
    ensures lo <= sum / size as real <= hi
  {
    var m, n := sum / size as real, size as real;
    assert m * n == sum;
    Monotone(m, lo, n);
    Monotone(hi, m, n);
  }

  lemma {:induction false} Monotone(a: real, b: real, n: real)
    requires n > 0.0
    ensures a * n >= b * n ==> a >= b
  {
    if a < b { assert (b - a) * n > 0.0; }
  }

  lemma {:induction false} BoxMeanWithin(s: Row, radius: nat, channels: nat, i: nat, c: nat, lo: real, hi: real)
    requires Within(s, channels, lo, hi) && i < |s| && c < channels
    ensures lo <= BoxMean(s, radius, i, c) <= hi
  {
    var from, until := Lo(i - radius), Min(i + radius + 1, |s|);
    SumWithin(s, channels, from, until, c, lo, hi);
    MeanWithin(Sum(s, from, until, c), until - from, lo, hi);
  }

  /** However many passes, no channel leaves the range it had; a row of one value stays as it is. */
  lemma {:induction false} PassesWithin(s: Row, radius: nat, channels: nat, passes: nat, lo: real, hi: real)
    requires Within(s, channels, lo, hi)
    ensures Within(Passes(s, radius, channels, passes), channels, lo, hi)
  {
    hide BoxMean;
    if passes > 0 {
      var before := Passes(s, radius, channels, passes - 1);
      PassesWithin(s, radius, channels, passes - 1, lo, hi);
      forall i, c | 0 <= i < |s| && 0 <= c < channels ensures lo <= BoxMean(before, radius, i, c) <= hi {
        BoxMeanWithin(before, radius, channels, i, c, lo, hi);
      }
    }
  }

  lemma {:induction false} ReversedSum(s: Row, lo: nat, hi: nat, c: nat)
    requires lo <= hi <= |s| && forall i :: 0 <= i < |s| ==> c < |s[i]|
    ensures Sum(Reversed(s), |s| - hi, |s| - lo, c) == Sum(s, lo, hi, c)
    decreases hi - lo
  {
    if lo < hi {
      SumDropsFirst(s, lo, hi, c);
      ReversedSum(s, lo + 1, hi, c);
    }
  }

  /** The box blur has no sense of direction, for all that the code runs from left to right. */
  lemma {:induction false} BoxBlurMirrors(s: Row, radius: nat, channels: nat)
    requires Shaped(s, channels)
    ensures BoxBlurred(Reversed(s), radius, channels) == Reversed(BoxBlurred(s, radius, channels))
  {
    var n := |s|;
    forall i, c | 0 <= i < n && 0 <= c < channels
      ensures BoxMean(Reversed(s), radius, i, c) == BoxMean(s, radius, n - 1 - i, c)
    {
      var m := n - 1 - i;
      ReversedSum(s, Lo(m - radius), Min(m + radius + 1, n), c);
    }
    forall i | 0 <= i < n
      ensures BoxBlurred(Reversed(s), radius, channels)[i] == Reversed(BoxBlurred(s, radius, channels))[i] {}
  }
}
