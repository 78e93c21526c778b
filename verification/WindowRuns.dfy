// When the windows of a whole line, as trimmed, never fall back at both ends,
// so that the row cache never runs out of slots.

module WindowRuns {
  import opened Numbers
  import opened WeightedRows
  import opened SlotTags
  import opened ContributionWindows
  import opened ContributionWeights
  import opened LineContributions

  // ---------- which weights of a row come out nonzero ----------

  /** Where the filter is asked for source pixel ix of output pixel u. */
  function Place(u: nat, output: nat, input: nat, ix: int): real
    requires output > 0 && input > 0
  {
    DownscaleFactor(output, input) * (ix as real - Center(u, output, input))
  }

  /** The filter's value there is more than next to nothing. */
  predicate KeptAt(d: Details, x: real) {
    Kept(d.filter(x))
  }

  /** Sharpening to a goal of nothing leaves no negative weight. */
  predicate Erases(ws: seq<real>, goal: real, sharpenRatio: real) {
    Sharpens(ws, goal, sharpenRatio) && NegativeMass(ws) > 0.0 && goal * PositiveMass(ws) == 0.0
  }

  predicate ErasesAt(d: Details, u: nat, output: nat, input: nat, sharpenRatio: real)
    requires output > 0 && input > 0 && u < output && d.window >= 0.0
  {
    Erases(RawWeights(d, u, output, input), d.sharpenPercentGoal / 100.0, sharpenRatio)
  }

  lemma {:induction false} ScaledZero(w: real, negative: real, positive: real)
    requires negative != 0.0 && positive != 0.0
    ensures ScaledWeight(w, negative, positive) == 0.0 <==> w == 0.0
  {
    if w * negative == 0.0 { assert w * negative / negative == w; }
    if w * positive == 0.0 { assert w * positive / positive == w; }
  }

  lemma {:induction false} FactorNotZero(goal: real, positiveMass: real, negativeMass: real)
    requires negativeMass != 0.0 && goal * positiveMass != 0.0
    ensures SharpenFactor(goal, positiveMass, negativeMass) != 0.0
  {
    var f := SharpenFactor(goal, positiveMass, negativeMass);
    assert f * negativeMass == goal * positiveMass;
  }

  /** Unless it erases negative weights, adjustment makes no weight zero and no zero a weight. */
  lemma {:induction false} AdjustedZeros(ws: seq<real>, goal: real, sharpenRatio: real)
    requires !Erases(ws, goal, sharpenRatio)
    ensures var adjusted := Adjusted(ws, goal, sharpenRatio);
            |adjusted| == |ws| && forall i :: 0 <= i < |ws| ==> (adjusted[i] == 0.0 <==> ws[i] == 0.0)
  {
    hide NegativeMass, PositiveMass, Total, ScaledWeight, SharpenFactor;
    var negative, positive := 1.0, 1.0;
    if !Sharpens(ws, goal, sharpenRatio) {
      InverseIsPositive(Total(ws));
      negative, positive := 1.0 / Total(ws), 1.0 / Total(ws);
    } else if NegativeMass(ws) != 0.0 {
      FactorNotZero(goal, PositiveMass(ws), NegativeMass(ws));
      negative := SharpenFactor(goal, PositiveMass(ws), NegativeMass(ws));
    }
    forall i | 0 <= i < |ws| ensures ScaledWeight(ws[i], negative, positive) == 0.0 <==> ws[i] == 0.0 {
      ScaledZero(ws[i], negative, positive);
    }
  }

  /** A trimmed window is the least one with every nonzero weight in it. */
  lemma {:induction false} TrimmedIsHull(left: int, ws: seq<real>)
    ensures var w := Trimmed(left, ws);
            && (Size(w) > 0 ==>
                  && left <= w.left && w.right < left + |ws|
                  && ws[w.left - left] != 0.0 && ws[w.right - left] != 0.0)
            && forall i :: 0 <= i < |ws| && ws[i] != 0.0 ==> w.left <= left + i <= w.right
  {
    if LeadingZeros(ws) < |ws| { LastNonzeroKept(ws); }
  }

  lemma {:induction false} RawIsKept(d: Details, u: nat, output: nat, input: nat, ix: int)
    requires output > 0 && input > 0
    ensures RawWeight(d, u, output, input, ix) != 0.0 <==> KeptAt(d, Place(u, output, input, ix))
  {}

  /** The window of an output pixel runs from its first to its last pixel that the filter keeps. */
  lemma {:induction false} WindowEnds(d: Details, u: nat, output: nat, input: nat, sharpenRatio: real)
    requires output > 0 && input > 0 && u < output && d.window >= 0.0
    requires !ErasesAt(d, u, output, input, sharpenRatio)
    ensures var w := WindowOf(d, u, output, input, sharpenRatio);
            var l, r := LeftPixel(d, u, output, input), RightPixel(d, u, output, input);
            && (Size(w) > 0 ==>
                  && 0 <= l <= w.left && w.right <= r < input
                  && KeptAt(d, Place(u, output, input, w.left)) && KeptAt(d, Place(u, output, input, w.right)))
            && forall ix :: l <= ix <= r && KeptAt(d, Place(u, output, input, ix)) ==> w.left <= ix <= w.right
  {
    hide LeftPixel, RightPixel, Adjusted, Trimmed, Erases, DownscaleFactor, Center;
    var l, r := LeftPixel(d, u, output, input), RightPixel(d, u, output, input);
    var raw, goal := RawWeights(d, u, output, input), d.sharpenPercentGoal / 100.0;
    WindowFits(d, u, output, input);
    AdjustedZeros(raw, goal, sharpenRatio);
    TrimmedIsHull(l, Adjusted(raw, goal, sharpenRatio));
    assert forall ix :: l <= ix <= r ==> raw[ix - l] == RawWeight(d, u, output, input, ix);
    forall ix | l <= ix <= r ensures raw[ix - l] != 0.0 <==> KeptAt(d, Place(u, output, input, ix)) {
      RawIsKept(d, u, output, input, ix);
    }
  }

  // ---------- what a fall back at both ends needs ----------

  /** The filter vanishes at x, between two places where it is asked and does not. */
  ghost predicate InnerZero(d: Details, output: nat, input: nat, x: real)
    requires output > 0 && input > 0
  {
    && !KeptAt(d, x)
    && (exists u: nat, ix: int ::
          u < output && Place(u, output, input, ix) < x && KeptAt(d, Place(u, output, input, ix)))
    && (exists u: nat, ix: int ::
          u < output && Place(u, output, input, ix) > x && KeptAt(d, Place(u, output, input, ix)))
  }

  /** An inner zero before the first pixel, or after the last, that output pixel u keeps. */
  ghost predicate CutLeft(d: Details, u: nat, output: nat, input: nat, w: Window)
    requires output > 0 && input > 0
  {
    exists ix :: LeftPixel(d, u, output, input) <= ix < w.left
      && InnerZero(d, output, input, Place(u, output, input, ix))
  }

  ghost predicate CutRight(d: Details, u: nat, output: nat, input: nat, w: Window)
    requires output > 0 && input > 0
  {
    exists ix :: w.right < ix <= RightPixel(d, u, output, input)
      && InnerZero(d, output, input, Place(u, output, input, ix))
  }

  lemma {:induction false} PlaceAscends(u: nat, v: nat, output: nat, input: nat, ix: int, jx: int)
    requires output > 0 && input > 0 && u <= v && ix <= jx
    ensures Place(v, output, input, ix) <= Place(u, output, input, jx)
    ensures ix < jx ==> Place(v, output, input, ix) < Place(u, output, input, jx)
  {
    hide Center, DownscaleFactor;
    CentersAscend(u, v, output, input);
    DownscaleIsPositive(output, input);
    var f, a, b :=
      DownscaleFactor(output, input), ix as real - Center(v, output, input), jx as real - Center(u, output, input);
    TimesAscends(f, a, b);
    assert Place(v, output, input, ix) == f * a && Place(u, output, input, jx) == f * b;
  }

  lemma {:induction false} DownscaleIsPositive(output: nat, input: nat)
    requires output > 0 && input > 0
    ensures 0.0 < DownscaleFactor(output, input) <= 1.0
  {}

  lemma {:induction false} TimesAscends(f: real, a: real, b: real)
    requires f > 0.0 && a <= b
    ensures f * a <= f * b && (a < b ==> f * a < f * b)
  {
    if a < b { assert f * (b - a) > 0.0; }
  }

  /** A later window that starts before an earlier one starts where the earlier one has an inner zero; one that ends
      before it has an inner zero where the earlier one ends. */
  lemma {:induction false} FallBackCuts(d: Details, u: nat, v: nat, output: nat, input: nat, sharpenRatio: real)
    requires output > 0 && input > 0 && u < v < output && d.window >= 0.0
    requires !ErasesAt(d, u, output, input, sharpenRatio) && !ErasesAt(d, v, output, input, sharpenRatio)
    requires Size(WindowOf(d, u, output, input, sharpenRatio)) > 0
      && Size(WindowOf(d, v, output, input, sharpenRatio)) > 0
    ensures var w, x := WindowOf(d, u, output, input, sharpenRatio), WindowOf(d, v, output, input, sharpenRatio);
            && (x.left < w.left ==>
                  LeftPixel(d, u, output, input) <= x.left
                    && InnerZero(d, output, input, Place(u, output, input, x.left)))
            && (x.right < w.right ==>
                  w.right <= RightPixel(d, v, output, input)
                    && InnerZero(d, output, input, Place(v, output, input, w.right)))
  {
    hide WindowOf, LeftPixel, RightPixel, Place, ErasesAt, KeptAt;
    var w, x := WindowOf(d, u, output, input, sharpenRatio), WindowOf(d, v, output, input, sharpenRatio);
    WindowEnds(d, u, output, input, sharpenRatio);
    WindowEnds(d, v, output, input, sharpenRatio);
    WindowsAscend(d, u, v, output, input);
    if x.left < w.left {
      PlaceAscends(u, v, output, input, x.left, x.left);
      PlaceAscends(u, u, output, input, x.left, w.left);
      assert !KeptAt(d, Place(u, output, input, x.left));
    }
    if x.right < w.right {
      PlaceAscends(v, v, output, input, x.right, w.right);
      PlaceAscends(u, v, output, input, w.right, w.right);
      assert !KeptAt(d, Place(v, output, input, w.right));
    }
  }

  /** The windows of a line, none of which lost negative weights to sharpening. */
  ghost predicate MadeBy(windows: seq<Window>, d: Details, output: nat, input: nat, sharpenRatio: real) {
    && output > 0 && input > 0 && d.window >= 0.0 && |windows| == output
    && forall u :: 0 <= u < output ==>
         windows[u] == WindowOf(d, u, output, input, sharpenRatio) && !ErasesAt(d, u, output, input, sharpenRatio)
  }

  lemma {:induction false} MadeStartInside(windows: seq<Window>, d: Details, output: nat, input: nat,
                                           sharpenRatio: real)
    requires MadeBy(windows, d, output, input, sharpenRatio)
    ensures StartsInside(windows)
  {
    hide WindowOf, ErasesAt;
    forall u | 0 <= u < output && Size(windows[u]) > 0 ensures 0 <= windows[u].left {
      WindowOfInside(d, u, output, input, sharpenRatio);
    }
  }

  /** The cache never runs out unless an inner zero cuts one row short on the left and another one a later row on the
      right. */
  lemma {:induction false} UncutNeverFull(windows: seq<Window>, d: Details, output: nat, input: nat, sharpenRatio: real)
    requires MadeBy(windows, d, output, input, sharpenRatio)
    requires forall u, v :: 0 <= u < v < output ==>
      !(CutLeft(d, u, output, input, windows[u]) && CutRight(d, v, output, input, windows[v]))
    ensures NeverFull(windows)
  {
    hide WindowOf, ErasesAt, InnerZero, LeftPixel, RightPixel, Place;
    forall u, v | 0 <= u < v < output ensures !FallsBack(windows[u], windows[v]) {
      if FallsBack(windows[u], windows[v]) { FallBackCuts(d, u, v, output, input, sharpenRatio); }
    }
    MadeStartInside(windows, d, output, input, sharpenRatio);
    NoneFallsBackNeverFull(windows);
  }

  /** Nor does it where no right end was trimmed, whatever sharpening left of the other weights. */
  lemma {:induction false} UntrimmedNeverFull(d: Details, output: nat, input: nat, sharpenRatio: real,
                                              windows: seq<Window>)
    requires output > 0 && input > 0 && d.window >= 0.0 && |windows| == output
    requires forall u :: 0 <= u < output ==> windows[u] == WindowOf(d, u, output, input, sharpenRatio)
    requires forall u :: 0 <= u < output && Size(windows[u]) > 0 ==> windows[u].right == RightPixel(d, u, output, input)
    ensures NeverFull(windows)
  {
    hide WindowOf, LeftPixel, RightPixel;
    forall u, v | 0 <= u < v < output ensures !FallsBack(windows[u], windows[v]) {
      WindowsAscend(d, u, v, output, input);
    }
    forall u | 0 <= u < output && Size(windows[u]) > 0 ensures 0 <= windows[u].left {
      WindowOfInside(d, u, output, input, sharpenRatio);
    }
    NoneFallsBackNeverFull(windows);
  }

  // ---------- filters that keep an interval ----------

  /** Between two places where the filter is asked and kept it is kept. */
  ghost predicate NoInnerZero(d: Details, output: nat, input: nat)
    requires output > 0 && input > 0
  {
    forall x :: !InnerZero(d, output, input, x)
  }

  /** A filter without inner zeros: both ends of the trimmed windows ascend, and the cache never runs out. */
  lemma {:induction false} IntervalNeverFull(windows: seq<Window>, d: Details, output: nat, input: nat,
                                             sharpenRatio: real)
    requires MadeBy(windows, d, output, input, sharpenRatio) && NoInnerZero(d, output, input)
    ensures forall u, v :: 0 <= u < v < output && Size(windows[u]) > 0 && Size(windows[v]) > 0 ==>
      windows[u].left <= windows[v].left && windows[u].right <= windows[v].right
    ensures NeverFull(windows)
  {
    hide WindowOf, ErasesAt, InnerZero, LeftPixel, RightPixel, Place;
    forall u, v | 0 <= u < v < output && Size(windows[u]) > 0 && Size(windows[v]) > 0
      ensures windows[u].left <= windows[v].left && windows[u].right <= windows[v].right
    {
      FallBackCuts(d, u, v, output, input, sharpenRatio);
    }
    MadeStartInside(windows, d, output, input, sharpenRatio);
    NoneFallsBackNeverFull(windows);
  }

  // ---------- distances between places ----------

  lemma {:induction false} PlaceDistance(u: nat, output: nat, input: nat, ix: int, count: int)
    requires output > 0 && input > 0
    ensures Place(u, output, input, ix + count) ==
      Place(u, output, input, ix) + DownscaleFactor(output, input) * count as real
  {
    hide Center, DownscaleFactor;
    Spread(DownscaleFactor(output, input), ix as real - Center(u, output, input), count as real);
  }

  lemma {:induction false} ScaledLength(output: nat, input: nat)
    requires output > 0 && input > 0
    ensures DownscaleFactor(output, input) * input as real == Min(output, input) as real
  {
    hide ScaleFactor;
    ScaleIs(output, input);
    var s := ScaleFactor(output, input);
    assert s * input as real == output as real;
  }

  /** How much closer to its end the filter is asked for a pixel from one row to the next. */
  function Pitch(output: nat, input: nat): (pitch: real)
    requires output > 0 && input > 0
  {
    if output <= input then 1.0 else input as real / output as real
  }

  lemma {:induction false} ProductPositive(x: real, y: real)
    requires x >= 0.0 && y >= 0.0
    ensures x * y >= 0.0
  {}

  lemma {:induction false} SignOfProduct(x: real, n: real)
    requires n > 0.0
    ensures (x > 0.0 <==> x * n > 0.0) && (x < 0.0 <==> x * n < 0.0)
  {
    if x > 0.0 { MultiplyAbove(0.0, x, n); }
    if x < 0.0 { MultiplyAbove(x, 0.0, n); }
  }

  lemma {:induction false} OneLess(q: real, n: real)
    ensures (1.0 - q) * n == n - q * n
  {}

  lemma {:induction false} QuotientOrder(m: real, n: real)
    requires m > 0.0 && n > 0.0
    ensures m / n > 0.0 && (m < n ==> m / n < 1.0) && (m >= n ==> m / n >= 1.0) && (m == n ==> m / n == 1.0)
  {
    var q := m / n;
    assert q * n == m;
    OneLess(q, n);
    SignOfProduct(q, n);
    SignOfProduct(1.0 - q, n);
  }

  lemma {:induction false} TimesThrough(p: real, q: real, m: real, n: real, product: real)
    requires q * m == n && p * n == product
    ensures p * q * m == product
  {
    assert p * q * m == p * n by { Regroup(p, m, q, n); }
  }

  lemma {:induction false} Reciprocals(p: real, q: real, m: real, n: real)
    requires m > 0.0 && p * n == m && q * m == n
    ensures p * q == 1.0
  {
    assert p * q * m == m by { TimesThrough(p, q, m, n, m); }
    CancelOne(p * q, m);
  }

  lemma {:induction false} QuotientsCancel(m: real, n: real)
    requires m > 0.0 && n > 0.0
    ensures m / n * (n / m) == 1.0
  {
    Reciprocals(m / n, n / m, m, n);
  }

  lemma {:induction false} CancelOne(x: real, n: real)
    requires n > 0.0 && x * n == n
    ensures x == 1.0
  {
    OneLess(x, n);
    SignOfProduct(1.0 - x, n);
  }

  lemma {:induction false} ScaleIs(output: nat, input: nat)
    requires output > 0 && input > 0
    ensures var s := ScaleFactor(output, input);
            && s == output as real / input as real
            && (output >= input ==> s >= 1.0 && DownscaleFactor(output, input) == 1.0)
            && (output < input ==> s < 1.0 && DownscaleFactor(output, input) == s)
            && (output == input ==> s == 1.0)
  {
    QuotientOrder(output as real, input as real);
  }

  lemma {:induction false} PitchIs(output: nat, input: nat)
    requires output > 0 && input > 0
    ensures 0.0 < Pitch(output, input) <= 1.0 && (output > input ==> Pitch(output, input) < 1.0)
    ensures Pitch(output, input) * ScaleFactor(output, input) == DownscaleFactor(output, input)
    ensures output >= input ==> DownscaleFactor(output, input) == 1.0
    ensures output < input ==> DownscaleFactor(output, input) == ScaleFactor(output, input) < 1.0
  {
    hide ScaleFactor;
    ScaleIs(output, input);
    if output > input {
      QuotientOrder(input as real, output as real);
      QuotientsCancel(input as real, output as real);
    }
  }

  /** Where the filter is asked for the same pixel some rows later. */
  lemma {:induction false} PlaceLater(u: nat, v: nat, output: nat, input: nat, ix: int)
    requires output > 0 && input > 0
    ensures Place(v, output, input, ix) == Place(u, output, input, ix) - Pitch(output, input) * (v - u) as real
  {
    hide Pitch, DownscaleFactor;
    PitchIs(output, input);
    var s, f, pitch := ScaleFactor(output, input), DownscaleFactor(output, input), Pitch(output, input);
    var p, q := (u as real + 0.5) / s, (v as real + 0.5) / s;
    assert p * s == u as real + 0.5 && q * s == v as real + 0.5;
    assert f * p == pitch * (u as real + 0.5) by { Regroup(pitch, s, p, u as real + 0.5); }
    assert f * q == pitch * (v as real + 0.5) by { Regroup(pitch, s, q, v as real + 0.5); }
    LaterBy(f, pitch, ix as real + 0.5, p, q, u, v);
  }

  lemma {:induction false} Regroup(a: real, b: real, c: real, product: real)
    requires c * b == product
    ensures a * b * c == a * product
  {}

  lemma {:induction false} LaterBy(f: real, pitch: real, x: real, p: real, q: real, u: nat, v: nat)
    requires f * p == pitch * (u as real + 0.5) && f * q == pitch * (v as real + 0.5)
    ensures f * (x - q) == f * (x - p) - pitch * (v - u) as real
  {
    Spread(f, x, -p);
    Spread(f, x, -q);
    Spread(pitch, u as real + 0.5, (v - u) as real);
  }

  // ---------- filters with inner zeros ----------

  /** The filter is kept nowhere it is asked beyond its window. */
  ghost predicate VanishesBeyondWindow(d: Details, output: nat, input: nat)
    requires output > 0 && input > 0
  {
    forall u: nat, ix: int :: u < output && KeptAt(d, Place(u, output, input, ix)) ==>
      -d.window <= Place(u, output, input, ix) <= d.window
  }

  /** One source pixel to either side of an inner zero that is asked for the filter is kept. */
  ghost predicate ZerosStandAlone(d: Details, output: nat, input: nat)
    requires output > 0 && input > 0
  {
    forall u: nat, ix: int :: u < output && InnerZero(d, output, input, Place(u, output, input, ix)) ==>
      KeptAt(d, Place(u, output, input, ix - 1)) && KeptAt(d, Place(u, output, input, ix + 1))
  }

  /** A pixel the filter keeps is no further out than the window's ends. */
  lemma {:induction false} KeptInWindow(d: Details, u: nat, output: nat, input: nat, sharpenRatio: real, ix: nat)
    requires output > 0 && input > 0 && u < output && d.window >= 0.0 && ix < input
    requires VanishesBeyondWindow(d, output, input) && !ErasesAt(d, u, output, input, sharpenRatio)
    requires KeptAt(d, Place(u, output, input, ix))
    ensures var w := WindowOf(d, u, output, input, sharpenRatio); w.left <= ix <= w.right
  {
    hide WindowOf, LeftPixel, RightPixel, ErasesAt, KeptAt, Center, DownscaleFactor;
    WindowCovers(d, u, output, input, ix);
    WindowEnds(d, u, output, input, sharpenRatio);
  }

  /** When inner zeros stand alone only a line no longer than the filter can fall back at both ends. */
  lemma {:induction false} FallBackIsShort(d: Details, u: nat, v: nat, output: nat, input: nat, sharpenRatio: real)
    requires output > 0 && input > 0 && u < v < output && d.window >= 0.0
    requires VanishesBeyondWindow(d, output, input) && ZerosStandAlone(d, output, input)
    requires !ErasesAt(d, u, output, input, sharpenRatio) && !ErasesAt(d, v, output, input, sharpenRatio)
    requires FallsBack(WindowOf(d, u, output, input, sharpenRatio), WindowOf(d, v, output, input, sharpenRatio))
    ensures Min(output, input) as real <= 2.0 * d.window
  {
    hide WindowOf, LeftPixel, RightPixel, Place, ErasesAt, KeptAt, InnerZero, DownscaleFactor;
    var w, x := WindowOf(d, u, output, input, sharpenRatio), WindowOf(d, v, output, input, sharpenRatio);
    FallBackCuts(d, u, v, output, input, sharpenRatio);
    WindowEnds(d, u, output, input, sharpenRatio);
    WindowEnds(d, v, output, input, sharpenRatio);
    if x.left > 0 {
      KeptInWindow(d, u, output, input, sharpenRatio, x.left - 1);
    } else if w.right < input - 1 {
      KeptInWindow(d, v, output, input, sharpenRatio, w.right + 1);
    } else {
      PlaceDistance(u, output, input, -1, input);
      ScaledLength(output, input);
    }
  }

  /** When inner zeros stand alone the cache never runs out for lines longer than the filter. */
  lemma {:induction false} LongLineNeverFull(windows: seq<Window>, d: Details, output: nat, input: nat,
                                             sharpenRatio: real)
    requires MadeBy(windows, d, output, input, sharpenRatio)
    requires VanishesBeyondWindow(d, output, input) && ZerosStandAlone(d, output, input)
    requires Min(output, input) as real > 2.0 * d.window
    ensures NeverFull(windows)
  {
    hide WindowOf, ErasesAt, InnerZero, KeptAt, DownscaleFactor;
    forall u, v | 0 <= u < v < output ensures !FallsBack(windows[u], windows[v]) {
      if FallsBack(windows[u], windows[v]) { FallBackIsShort(d, u, v, output, input, sharpenRatio); }
    }
    MadeStartInside(windows, d, output, input, sharpenRatio);
    NoneFallsBackNeverFull(windows);
  }

  // ---------- filters whose inner zeros are whole ----------

  predicate IsWhole(x: real) {
    x.Floor as real == x
  }

  /** Wherever it is asked the filter vanishes at whole distances other than zero, and has no other inner zeros. */
  ghost predicate Interpolating(d: Details, output: nat, input: nat)
    requires output > 0 && input > 0
  {
    forall u: nat, ix: int :: u < output ==>
      var x := Place(u, output, input, ix);
      && (InnerZero(d, output, input, x) ==> IsWhole(x))
      && (IsWhole(x) && x != 0.0 ==> !KeptAt(d, x))
  }

  lemma {:induction false} WholeDistances(c: real, i: int, j: int)
    requires IsWhole(i as real - c)
    ensures IsWhole(j as real - c)
  {
    var n := (i as real - c).Floor;
    assert j as real - c == (j - i + n) as real;
  }

  lemma {:induction false} EnlargedPlace(u: nat, output: nat, input: nat, ix: int)
    requires 0 < input <= output
    ensures Place(u, output, input, ix) == ix as real - Center(u, output, input)
  {
    hide Center, DownscaleFactor, Pitch;
    PitchIs(output, input);
  }

  /** In an enlargement, a centre a whole distance from a pixel is a pixel, the only one such a filter keeps. */
  lemma {:induction false} WholeCentre(d: Details, u: nat, output: nat, input: nat, sharpenRatio: real, ix: int)
    requires 0 < input <= output && u < output && d.window >= 0.0 && Interpolating(d, output, input)
    requires !ErasesAt(d, u, output, input, sharpenRatio) && Size(WindowOf(d, u, output, input, sharpenRatio)) > 0
    requires IsWhole(Place(u, output, input, ix))
    ensures var w := WindowOf(d, u, output, input, sharpenRatio);
            w.left as real == Center(u, output, input) == w.right as real
  {
    hide WindowOf, LeftPixel, RightPixel, ErasesAt, KeptAt, InnerZero, IsWhole, Place, Center;
    var w := WindowOf(d, u, output, input, sharpenRatio);
    WindowEnds(d, u, output, input, sharpenRatio);
    EnlargedPlace(u, output, input, ix);
    EnlargedPlace(u, output, input, w.left);
    EnlargedPlace(u, output, input, w.right);
    WholeDistances(Center(u, output, input), ix, w.left);
    WholeDistances(Center(u, output, input), ix, w.right);
  }

  lemma {:induction false} EnlargedNeverFallsBack(d: Details, u: nat, v: nat, output: nat, input: nat,
                                                  sharpenRatio: real)
    requires 0 < input <= output && u < v < output && d.window >= 0.0 && Interpolating(d, output, input)
    requires !ErasesAt(d, u, output, input, sharpenRatio) && !ErasesAt(d, v, output, input, sharpenRatio)
    ensures !FallsBack(WindowOf(d, u, output, input, sharpenRatio), WindowOf(d, v, output, input, sharpenRatio))
  {
    hide WindowOf, LeftPixel, RightPixel, ErasesAt, KeptAt, InnerZero, IsWhole, Place, Center;
    var w, x := WindowOf(d, u, output, input, sharpenRatio), WindowOf(d, v, output, input, sharpenRatio);
    if FallsBack(w, x) {
      FallBackCuts(d, u, v, output, input, sharpenRatio);
      WholeCentre(d, u, output, input, sharpenRatio, x.left);
      WholeCentre(d, v, output, input, sharpenRatio, w.right);
      CentersAscend(u, v, output, input);
      assert false;
    }
  }

  lemma {:induction false} WholeBetween(x: real, step: real)
    requires IsWhole(x) && IsWhole(x - step)
    ensures !(0.0 < step < 1.0)
  {
    var n, m := x.Floor, (x - step).Floor;
    assert step == (n - m) as real;
  }

  /** In a reduction no first pixel of the source is a whole distance from a centre. */
  lemma {:induction false} FirstNotWhole(u: nat, output: nat, input: nat)
    requires 0 < output < input
    ensures !IsWhole(Place(u, output, input, 0))
  {
    hide Pitch, DownscaleFactor, ScaleFactor;
    var f := DownscaleFactor(output, input);
    PitchIs(output, input);
    CentreScaled(u, output, input);
    assert Place(u, output, input, 0) == -(u as real + 0.5) + 0.5 * f;
    NotWhole(u, f);
  }

  lemma {:induction false} NotWhole(u: nat, f: real)
    requires 0.0 < f < 1.0
    ensures !IsWhole(-(u as real + 0.5) + 0.5 * f)
  {
    var x := -(u as real + 0.5) + 0.5 * f;
    BelowZero(x.Floor + u, x + u as real);
  }

  lemma {:induction false} BelowZero(n: int, y: real)
    requires -1.0 < y < 0.0
    ensures n as real != y
  {}

  lemma {:induction false} CentreScaled(u: nat, output: nat, input: nat)
    requires 0 < output < input
    ensures DownscaleFactor(output, input) * Center(u, output, input) ==
      u as real + 0.5 - 0.5 * DownscaleFactor(output, input)
  {
    PitchIs(output, input);
    var f, p := ScaleFactor(output, input), (u as real + 0.5) / ScaleFactor(output, input);
    assert f * p == u as real + 0.5;
    Spread(f, p, -0.5);
  }

  lemma {:induction false} QuotientsApart(a: real, b: real, s: real)
    requires 0.0 < s < 1.0 && b >= a + 1.0
    ensures b / s > a / s + 1.0
  {
    var p, q := a / s, b / s;
    assert p * s == a && q * s == b;
    assert (q - p - 1.0) * s == q * s - p * s - s;
    SignOfProduct(q - p - 1.0, s);
  }

  /** In a reduction the pixel a centre lies in or behind moves on from every row to the next. */
  lemma {:induction false} CentresApart(u: nat, v: nat, output: nat, input: nat)
    requires 0 < output < input && u < v
    ensures Center(v, output, input) > Center(u, output, input) + 1.0
  {
    ScaleIs(output, input);
    QuotientOrder(output as real, input as real);
    QuotientsApart(u as real + 0.5, v as real + 0.5, ScaleFactor(output, input));
  }

  lemma {:induction false} ReducedNeverFallsBack(d: Details, u: nat, v: nat, output: nat, input: nat,
                                                 sharpenRatio: real)
    requires 0 < output < input && u < v < output && d.window >= 0.0 && Interpolating(d, output, input)
    requires !ErasesAt(d, u, output, input, sharpenRatio) && !ErasesAt(d, v, output, input, sharpenRatio)
    ensures !FallsBack(WindowOf(d, u, output, input, sharpenRatio), WindowOf(d, v, output, input, sharpenRatio))
  {
    hide WindowOf, LeftPixel, RightPixel, ErasesAt, KeptAt, IsWhole, Place, Center, DownscaleFactor, Pitch;
    var w, x := WindowOf(d, u, output, input, sharpenRatio), WindowOf(d, v, output, input, sharpenRatio);
    if FallsBack(w, x) {
      FallBackCuts(d, u, v, output, input, sharpenRatio);
      WindowEnds(d, u, output, input, sharpenRatio);
      WindowEnds(d, v, output, input, sharpenRatio);
      BesideKept(d, u, v, output, input, x.left, w.left);
      StartsApart(d, u, v, output, input);
      WindowsAscend(d, u, v, output, input);
      assert !(LeftPixel(d, u, output, input) <= x.left - 1);
      FirstNotWhole(u, output, input);
      assert false;
    }
  }

  /** Next to a whole inner zero, on the side of a place kept further out, such a filter is kept. */
  lemma {:induction false} BesideKept(d: Details, u: nat, v: nat, output: nat, input: nat, ix: int, kept: int)
    requires 0 < output < input && u < v < output && Interpolating(d, output, input) && ix < kept
    requires InnerZero(d, output, input, Place(u, output, input, ix))
    requires KeptAt(d, Place(v, output, input, ix)) && KeptAt(d, Place(u, output, input, kept))
    ensures IsWhole(Place(u, output, input, ix)) && KeptAt(d, Place(u, output, input, ix - 1))
  {
    hide KeptAt, Place, Center, DownscaleFactor, Pitch, IsWhole;
    PitchIs(output, input);
    PlaceLater(u, v, output, input, ix);
    PlaceDistance(u, output, input, ix, -1);
    PlaceAscends(u, u, output, input, ix - 1, kept);
    var x, step := Place(u, output, input, ix), DownscaleFactor(output, input);
    ReducedPitch(output, input);
    assert Place(u, output, input, ix - 1) == x - step && Place(v, output, input, ix) == x - (v - u) as real;
    if !KeptAt(d, x - step) {
      assert InnerZero(d, output, input, Place(u, output, input, ix - 1));
      WholeBetween(x, step);
    }
  }

  lemma {:induction false} ReducedPitch(output: nat, input: nat)
    requires 0 < output <= input
    ensures Pitch(output, input) == 1.0
  {}

  /** In a reduction, two untrimmed windows start at the same pixel only where the image starts. */
  lemma {:induction false} StartsApart(d: Details, u: nat, v: nat, output: nat, input: nat)
    requires 0 < output < input && u < v < output && d.window >= 0.0
    ensures LeftPixel(d, u, output, input) < LeftPixel(d, v, output, input) || LeftPixel(d, v, output, input) == 0
  {
    hide Center, AllocatedSize;
    CentresApart(u, v, output, input);
  }

  /** Such a filter never makes the cache run out, whatever the sizes. */
  lemma {:induction false} InterpolatingNeverFull(
    windows: seq<Window>, d: Details, output: nat, input: nat, sharpenRatio: real)
    requires MadeBy(windows, d, output, input, sharpenRatio) && Interpolating(d, output, input)
    ensures NeverFull(windows)
  {
    hide WindowOf, ErasesAt, Interpolating;
    forall u, v | 0 <= u < v < output ensures !FallsBack(windows[u], windows[v]) {
      if output >= input {
        EnlargedNeverFallsBack(d, u, v, output, input, sharpenRatio);
      } else {
        ReducedNeverFallsBack(d, u, v, output, input, sharpenRatio);
      }
    }
    MadeStartInside(windows, d, output, input, sharpenRatio);
    NoneFallsBackNeverFull(windows);
  }
}
