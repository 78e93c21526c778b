// Filters with one pair of inner zeros, as cubic ones have: exactly when the
// windows they make exhaust the row cache.

module DippedFilters {
  import opened Numbers
  import opened WeightedRows
  import opened SlotTags
  import opened ContributionWindows
  import opened ContributionWeights
  import opened LineContributions
  import opened WindowRuns

  /** The filter is kept around its centre and in a lobe on either side; between them it dips through zero, and beyond
      the lobes it vanishes for good. */
  ghost predicate Dips(d: Details, core: real, dip: real, lobe: real, reach: real) {
    && 0.5 < core <= dip < lobe <= reach
    && (forall x :: Magnitude(x) < core ==> KeptAt(d, x))
    && (forall x :: dip < Magnitude(x) < lobe ==> KeptAt(d, x))
    && (forall x :: Magnitude(x) >= reach ==> !KeptAt(d, x))
    && (forall x, y :: lobe <= Magnitude(x) <= Magnitude(y) && KeptAt(d, y) ==> KeptAt(d, x))
  }

  lemma {:induction false} InnerZeroInDip(d: Details, core: real, dip: real, lobe: real, reach: real, output: nat,
                                          input: nat, x: real)
    requires output > 0 && input > 0 && Dips(d, core, dip, lobe, reach) && InnerZero(d, output, input, x)
    ensures core <= Magnitude(x) <= dip
  {
    hide KeptAt, Place;
  }

  /** Every output pixel keeps the source pixel nearest to its centre. */
  lemma {:induction false} NearestKept(d: Details, core: real, dip: real, lobe: real, reach: real, u: nat, output: nat,
                                       input: nat, sharpenRatio: real)
    returns (k: nat)
    requires output > 0 && input > 0 && u < output && d.window >= 0.0 && Dips(d, core, dip, lobe, reach)
    requires !ErasesAt(d, u, output, input, sharpenRatio)
    ensures var w := WindowOf(d, u, output, input, sharpenRatio); w.left <= k <= w.right
    ensures k < input && -0.5 <= Place(u, output, input, k) <= 0.5
  {
    hide WindowOf, LeftPixel, RightPixel, ErasesAt, KeptAt, Center;
    CenterInside(u, output, input);
    k := (Center(u, output, input) + 0.5).Floor;
    NearestCovered(d, u, output, input, k);
    PlaceNear(u, output, input, k);
    WindowEnds(d, u, output, input, sharpenRatio);
    hide Place;
    assert KeptAt(d, Place(u, output, input, k));
  }

  lemma {:induction false} TimesWithin(f: real, x: real)
    requires 0.0 < f <= 1.0 && -0.5 <= x <= 0.5
    ensures -0.5 <= f * x <= 0.5
  {
    var rest := (1.0 - f) * x;
    assert rest == x - f * x;
    if x >= 0.0 {
      ProductPositive(1.0 - f, x);
      ProductPositive(f, x);
    } else {
      ProductPositive(1.0 - f, -x);
      ProductPositive(f, -x);
      assert (1.0 - f) * -x == -rest && f * -x == -(f * x);
    }
  }

  lemma {:induction false} PlaceNear(u: nat, output: nat, input: nat, k: int)
    requires output > 0 && input > 0 && k == (Center(u, output, input) + 0.5).Floor
    ensures -0.5 <= Place(u, output, input, k) <= 0.5
  {
    hide Center, DownscaleFactor;
    DownscaleIsPositive(output, input);
    TimesWithin(DownscaleFactor(output, input), k as real - Center(u, output, input));
  }

  lemma {:induction false} NearestCovered(d: Details, u: nat, output: nat, input: nat, k: nat)
    requires output > 0 && input > 0 && d.window >= 0.0 && k < input && k == (Center(u, output, input) + 0.5).Floor
    ensures LeftPixel(d, u, output, input) <= k <= RightPixel(d, u, output, input)
  {
    hide Center, AllocatedSize;
    AllocationReaches(d, output, input);
  }

  /** Where a later window falls back from an earlier one at both ends: the dip lies on its first pixel in the earlier
      row, on the left, and on the earlier one's last pixel in its own row, on the right. */
  lemma {:induction false} FallBackPlaces(d: Details, core: real, dip: real, lobe: real, reach: real, u: nat, v: nat,
                                          output: nat, input: nat, sharpenRatio: real)
    requires output > 0 && input > 0 && u < v < output && d.window >= 0.0 && Dips(d, core, dip, lobe, reach)
    requires !ErasesAt(d, u, output, input, sharpenRatio) && !ErasesAt(d, v, output, input, sharpenRatio)
    requires FallsBack(WindowOf(d, u, output, input, sharpenRatio), WindowOf(d, v, output, input, sharpenRatio))
    ensures var w, x := WindowOf(d, u, output, input, sharpenRatio), WindowOf(d, v, output, input, sharpenRatio);
            var p, q := -Place(u, output, input, x.left), Place(v, output, input, w.right);
            && core <= p <= dip && core <= q <= dip && !KeptAt(d, -p) && !KeptAt(d, q)
            && p + Pitch(output, input) * (v - u) as real < reach
            && 0 <= x.left < w.right < input
  {
    hide WindowOf, LeftPixel, RightPixel, ErasesAt, KeptAt, InnerZero, Place, Pitch;
    var w, x := WindowOf(d, u, output, input, sharpenRatio), WindowOf(d, v, output, input, sharpenRatio);
    FallBackCuts(d, u, v, output, input, sharpenRatio);
    DippedNotKept(d, output, input, Place(u, output, input, x.left));
    DippedNotKept(d, output, input, Place(v, output, input, w.right));
    InnerZeroInDip(d, core, dip, lobe, reach, output, input, Place(u, output, input, x.left));
    InnerZeroInDip(d, core, dip, lobe, reach, output, input, Place(v, output, input, w.right));
    var i := NearestKept(d, core, dip, lobe, reach, u, output, input, sharpenRatio);
    var j := NearestKept(d, core, dip, lobe, reach, v, output, input, sharpenRatio);
    PlaceAscends(u, u, output, input, x.left, i);
    PlaceAscends(v, v, output, input, j, w.right);
    WindowEnds(d, u, output, input, sharpenRatio);
    WindowEnds(d, v, output, input, sharpenRatio);
    PlaceLater(u, v, output, input, x.left);
    PitchPositive(u, v, output, input);
  }

  lemma {:induction false} DippedNotKept(d: Details, output: nat, input: nat, x: real)
    requires output > 0 && input > 0 && InnerZero(d, output, input, x)
    ensures !KeptAt(d, x)
  {}

  lemma {:induction false} PitchPositive(u: nat, v: nat, output: nat, input: nat)
    requires output > 0 && input > 0 && u < v
    ensures Pitch(output, input) * (v - u) as real >= Pitch(output, input) > 0.0
  {
    hide Pitch;
    PitchIs(output, input);
    TimesAscends(Pitch(output, input), 1.0, (v - u) as real);
  }

  /** Without an enlargement nothing falls back when the lobe is no wider than one row's step. */
  lemma {:induction false} ReducedKeepsOrder(d: Details, core: real, dip: real, lobe: real, reach: real, u: nat,
                                             v: nat, output: nat, input: nat, sharpenRatio: real)
    requires 0 < output <= input && u < v < output && d.window >= 0.0 && Dips(d, core, dip, lobe, reach)
    requires reach <= core + 1.0
    requires !ErasesAt(d, u, output, input, sharpenRatio) && !ErasesAt(d, v, output, input, sharpenRatio)
    ensures !FallsBack(WindowOf(d, u, output, input, sharpenRatio), WindowOf(d, v, output, input, sharpenRatio))
  {
    hide WindowOf, ErasesAt, KeptAt, Place, Dips;
    if FallsBack(WindowOf(d, u, output, input, sharpenRatio), WindowOf(d, v, output, input, sharpenRatio)) {
      FallBackPlaces(d, core, dip, lobe, reach, u, v, output, input, sharpenRatio);
      ReducedPitch(output, input);
      PitchPositive(u, v, output, input);
      assert false;
    }
  }

  // ---------- enlargements ----------

  lemma {:induction false} EnlargedCentres(u: nat, v: nat, output: nat, input: nat)
    requires 0 < input < output
    ensures Center(v, output, input) == Center(u, output, input) + Pitch(output, input) * (v - u) as real
    ensures Center(u, output, input) == Pitch(output, input) * (u as real + 0.5) - 0.5
  {
    hide Pitch, Center;
    EnlargedPlace(u, output, input, 0);
    EnlargedPlace(v, output, input, 0);
    PlaceLater(u, v, output, input, 0);
    EnlargedCentre(u, output, input);
  }

  lemma {:induction false} EnlargedCentre(u: nat, output: nat, input: nat)
    requires 0 < input < output
    ensures Center(u, output, input) == Pitch(output, input) * (u as real + 0.5) - 0.5
  {
    hide Pitch;
    PitchIs(output, input);
    var s, p := ScaleFactor(output, input), (u as real + 0.5) / ScaleFactor(output, input);
    assert p * s == u as real + 0.5;
    Regroup(Pitch(output, input), s, p, u as real + 0.5);
    assert Pitch(output, input) * s == 1.0;
  }

  /** Source pixels less than two away are in the untrimmed window of an enlargement. */
  lemma {:induction false} TwoCovered(d: Details, u: nat, output: nat, input: nat, ix: nat)
    requires 0 < input < output && d.window > 0.501 && ix < input && -2.0 < Place(u, output, input, ix) < 2.0
    ensures LeftPixel(d, u, output, input) <= ix <= RightPixel(d, u, output, input)
  {
    hide Center, AllocatedSize, Place;
    EnlargedPlace(u, output, input, ix);
    FourAllocated(d, output, input);
    TwoWithin(Center(u, output, input), ix, AllocatedSize(d, output, input) - 1);
  }

  lemma {:induction false} FourAllocated(d: Details, output: nat, input: nat)
    requires 0 < input < output && d.window > 0.501
    ensures AllocatedSize(d, output, input) >= 4
  {
    hide DownscaleFactor, Pitch;
    PitchIs(output, input);
    HalfOverOne(d, DownscaleFactor(output, input));
  }

  lemma {:induction false} TwoWithin(c: real, ix: int, n: int)
    requires n >= 3 && -2.0 < ix as real - c < 2.0
    ensures c.Floor - n / 2 <= ix <= c.Floor - n / 2 + n
  {
    RightRoundsUp(n, 1);
  }

  lemma {:induction false} HalfOverOne(d: Details, f: real)
    requires f == 1.0
    ensures (d.window + 0.5) / f == d.window + 0.5
  {}

  lemma {:induction false} KeptHeld(d: Details, core: real, dip: real, lobe: real, reach: real, u: nat, output: nat,
                                    input: nat, sharpenRatio: real, ix: nat)
    requires 0 < input < output && u < output && d.window > 0.501 && ix < input
    requires Dips(d, core, dip, lobe, reach) && reach <= 2.0 && !ErasesAt(d, u, output, input, sharpenRatio)
    requires KeptAt(d, Place(u, output, input, ix))
    ensures var w := WindowOf(d, u, output, input, sharpenRatio); w.left <= ix <= w.right
  {
    hide WindowOf, LeftPixel, RightPixel, ErasesAt, KeptAt, Place;
    TwoCovered(d, u, output, input, ix);
    WindowEnds(d, u, output, input, sharpenRatio);
  }

  /** A row that keeps two pixels makes the buffer hold both and all between. */
  lemma {:induction false} RowHolds(windows: seq<Window>, d: Details, core: real, dip: real, lobe: real, reach: real,
                                    u: nat, output: nat, input: nat, sharpenRatio: real, i: nat, j: nat)
    requires MadeBy(windows, d, output, input, sharpenRatio) && input < output && u < output && d.window > 0.501
    requires Dips(d, core, dip, lobe, reach) && reach <= 2.0 && i <= j < input
    requires KeptAt(d, Place(u, output, input, i)) && KeptAt(d, Place(u, output, input, j))
    ensures LargestSize(windows) >= j - i + 1
  {
    hide WindowOf, ErasesAt, KeptAt, Place, Dips;
    KeptHeld(d, core, dip, lobe, reach, u, output, input, sharpenRatio, i);
    KeptHeld(d, core, dip, lobe, reach, u, output, input, sharpenRatio, j);
    assert Size(windows[u]) <= LargestSize(windows);
  }

  lemma {:induction false} NextCentre(u: nat, output: nat, input: nat)
    requires 0 < input < output
    ensures Center(u + 1, output, input) == Center(u, output, input) + Pitch(output, input)
    ensures Center(0, output, input) < 0.0
  {
    hide Pitch, Center;
    PitchIs(output, input);
    EnlargedCentres(u, u + 1, output, input);
    EnlargedCentres(0, 0, output, input);
  }

  lemma {:induction false} TwoSteps(u: nat, v: nat, output: nat, input: nat)
    requires 0 < input < output && u + 1 < v
    ensures Center(v, output, input) >= Center(u, output, input) + 2.0 * Pitch(output, input)
  {
    hide Pitch, Center;
    NextCentre(u, output, input);
    NextCentre(u + 1, output, input);
    CentersAscend(u + 2, v, output, input);
  }

  /** The last row before u whose centre lies less than this far behind a pixel. */
  lemma {:induction false} LastNearer(u: nat, output: nat, input: nat, ix: nat, distance: real) returns (m: nat)
    requires 0 < input < output && distance > 0.0 && Center(u, output, input) - ix as real >= distance
    ensures m < u && distance - Pitch(output, input) <= Center(m, output, input) - ix as real < distance
  {
    hide Center, Pitch;
    PitchIs(output, input);
    NextCentre(0, output, input);
    if u == 0 { assert false; }
    NextCentre(u - 1, output, input);
    if Center(u - 1, output, input) - ix as real >= distance {
      m := LastNearer(u - 1, output, input, ix, distance);
    } else {
      m := u - 1;
    }
  }

  /** The first row after u whose centre lies more than this far behind a pixel. */
  lemma {:induction false} FirstFurther(u: nat, v: nat, output: nat, input: nat, ix: nat, distance: real)
    returns (m: nat)
    requires 0 < input < output && u < v && Center(u, output, input) - ix as real <= distance
    requires Center(v, output, input) - ix as real > distance
    ensures u < m <= v && distance < Center(m, output, input) - ix as real
    ensures Center(m - 1, output, input) - ix as real <= distance
    decreases v - u
  {
    hide Center, Pitch;
    if Center(u + 1, output, input) - ix as real <= distance {
      m := FirstFurther(u + 1, v, output, input, ix, distance);
    } else {
      m := u + 1;
    }
  }

  // ---------- narrow filters ----------

  /** The dip lies at most one from the centre. */
  predicate Narrow(core: real, dip: real, lobe: real, reach: real) {
    && core + dip <= 2.0 && 4.0 - 3.0 * core < lobe
    && reach + 2.0 * dip <= 3.0 + core && reach <= core + 1.0 && reach <= 2.0
  }

  lemma {:induction false} NarrowSize(core: real, dip: real, reach: real, p: real, q: real, step: real, n: int)
    requires 0.5 < core <= p <= dip && core <= q <= dip && step > 0.0 && p + step < reach && n as real == p + q + step
    requires reach + 2.0 * dip <= 3.0 + core
    ensures n == 2 && step <= 2.0 - 2.0 * core
  {}

  lemma {:induction false} NarrowRow(d: Details, core: real, dip: real, lobe: real, reach: real, distance: real,
                                     pitch: real)
    requires Dips(d, core, dip, lobe, reach) && Narrow(core, dip, lobe, reach)
    requires core - pitch <= distance < core && 0.0 < pitch < 1.0 && pitch <= 2.0 - 2.0 * core
    ensures KeptAt(d, -distance) && KeptAt(d, 2.0 - distance)
  {
    hide KeptAt;
  }

  /** A fall back of a narrow filter spans three pixels, and an earlier row keeps both the first and the last of
      them. */
  lemma {:induction false} NarrowFound(d: Details, core: real, dip: real, lobe: real, reach: real, u: nat, output: nat,
                                       input: nat, l: nat, r: nat, q: real, step: real)
    returns (m: nat)
    requires 0 < input < output && Dips(d, core, dip, lobe, reach) && Narrow(core, dip, lobe, reach)
    requires core <= Center(u, output, input) - l as real <= dip && core <= q <= dip
    requires step >= Pitch(output, input) && Center(u, output, input) - l as real + step < reach
    requires (r - l) as real == Center(u, output, input) - l as real + q + step
    ensures m < u && l <= r && KeptAt(d, Place(m, output, input, l)) && KeptAt(d, Place(m, output, input, r))
  {
    hide KeptAt, Place, Center, Pitch, Dips;
    PitchIs(output, input);
    DipsBeyondHalf(d, core, dip, lobe, reach);
    NarrowSize(core, dip, reach, Center(u, output, input) - l as real, q, step, r - l);
    m := LastNearer(u, output, input, l, core);
    var distance := Center(m, output, input) - l as real;
    EnlargedPlace(m, output, input, l);
    EnlargedPlace(m, output, input, r);
    NarrowRow(d, core, dip, lobe, reach, distance, Pitch(output, input));
    assert Place(m, output, input, l) == -distance && Place(m, output, input, r) == 2.0 - distance;
  }

  lemma {:induction false} DipsBeyondHalf(d: Details, core: real, dip: real, lobe: real, reach: real)
    requires Dips(d, core, dip, lobe, reach)
    ensures 0.5 < core <= dip < lobe <= reach
  {}

  /** The places of a fall back in an enlargement, as distances from the two centres. */
  lemma {:induction false} FallBackDistances(d: Details, core: real, dip: real, lobe: real, reach: real, u: nat,
                                             v: nat, output: nat, input: nat, sharpenRatio: real)
    requires 0 < input < output && u < v < output && d.window >= 0.0 && Dips(d, core, dip, lobe, reach)
    requires !ErasesAt(d, u, output, input, sharpenRatio) && !ErasesAt(d, v, output, input, sharpenRatio)
    requires FallsBack(WindowOf(d, u, output, input, sharpenRatio), WindowOf(d, v, output, input, sharpenRatio))
    ensures var w, x := WindowOf(d, u, output, input, sharpenRatio), WindowOf(d, v, output, input, sharpenRatio);
            var l, r := x.left, w.right;
            var p, q := Center(u, output, input) - l as real, r as real - Center(v, output, input);
            && core <= p <= dip && core <= q <= dip && !KeptAt(d, -p) && !KeptAt(d, q)
            && p + Pitch(output, input) * (v - u) as real < reach
            && 0 <= l < r < input
            && (r - l) as real == p + q + Pitch(output, input) * (v - u) as real
  {
    hide WindowOf, ErasesAt, KeptAt, Place, Center, Pitch, Dips;
    FallBackPlaces(d, core, dip, lobe, reach, u, v, output, input, sharpenRatio);
    EnlargedPlace(u, output, input, WindowOf(d, v, output, input, sharpenRatio).left);
    EnlargedPlace(v, output, input, WindowOf(d, u, output, input, sharpenRatio).right);
    EnlargedCentres(u, v, output, input);
  }

  lemma {:induction false} NarrowSpans(windows: seq<Window>, d: Details, core: real, dip: real, lobe: real,
                                       reach: real, u: nat, v: nat, output: nat, input: nat, sharpenRatio: real)
    requires MadeBy(windows, d, output, input, sharpenRatio) && 0 < input < output && u < v < output
    requires Dips(d, core, dip, lobe, reach) && Narrow(core, dip, lobe, reach) && d.window > 0.501
    requires FallsBack(windows[u], windows[v])
    ensures Spans(windows[u], windows[v], LargestSize(windows))
  {
    hide WindowOf, ErasesAt, KeptAt, Place, Center, Pitch, Dips, LargestSize;
    FallBackDistances(d, core, dip, lobe, reach, u, v, output, input, sharpenRatio);
    var l, r := windows[v].left, windows[u].right;
    PitchPositive(u, v, output, input);
    var m := NarrowFound(d, core, dip, lobe, reach, u, output, input, l, r, r as real - Center(v, output, input),
                         Pitch(output, input) * (v - u) as real);
    RowHolds(windows, d, core, dip, lobe, reach, m, output, input, sharpenRatio, l, r);
  }

  /** A narrow filter never exhausts the row cache, whatever the sizes. */
  lemma {:induction false} NarrowNeverFull(windows: seq<Window>, d: Details, core: real, dip: real, lobe: real,
                                           reach: real, output: nat, input: nat, sharpenRatio: real)
    requires MadeBy(windows, d, output, input, sharpenRatio) && d.window > 0.501
    requires Dips(d, core, dip, lobe, reach) && Narrow(core, dip, lobe, reach)
    ensures NeverFull(windows)
  {
    hide WindowOf, ErasesAt, KeptAt, Place, Dips, LargestSize;
    forall u, v | 0 <= u < v < output && FallsBack(windows[u], windows[v])
      ensures Spans(windows[u], windows[v], LargestSize(windows))
    {
      if output <= input {
        ReducedKeepsOrder(d, core, dip, lobe, reach, u, v, output, input, sharpenRatio);
      } else {
        NarrowSpans(windows, d, core, dip, lobe, reach, u, v, output, input, sharpenRatio);
      }
    }
    SpansUnlessBack(windows);
    MadeStartInside(windows, d, output, input, sharpenRatio);
    SpansFitNeverFull(windows);
  }

  // ---------- wide filters ----------

  /** The dip is short and lies between one and five quarters from the centre. */
  predicate Wide(core: real, dip: real, lobe: real, reach: real) {
    && 1.0 <= core && dip < 1.25 && reach <= 2.0
    && dip < 3.0 * core - 2.0 && 3.0 * dip - 2.0 < lobe && 5.0 - 3.0 * core < lobe && 3.0 - dip <= lobe
    && dip - core < 3.0 - 2.0 * dip && 4.0 * dip < 3.0 + 2.0 * core
  }

  lemma {:induction false} InBothLobes(d: Details, core: real, dip: real, lobe: real, reach: real, distance: real)
    requires Dips(d, core, dip, lobe, reach) && 3.0 - dip <= lobe && dip < distance < 3.0 - dip
    ensures KeptAt(d, -distance) && KeptAt(d, 3.0 - distance)
  {
    hide KeptAt;
  }

  lemma {:induction false} BetweenDips(core: real, dip: real, pitch: real, first: real, last: real, before: real,
                                       after: real)
    requires core <= first && last <= 3.0 - core && first + 2.0 * pitch <= last
    requires before <= dip < after && after == before + pitch && 4.0 * dip < 3.0 + 2.0 * core
    ensures after < 3.0 - dip
  {}

  /** A fall back between rows further apart: some row between them keeps both ends of what it spans. */
  lemma {:induction false} WideFound(d: Details, core: real, dip: real, lobe: real, reach: real, u: nat, v: nat,
                                     output: nat, input: nat, l: nat)
    returns (m: nat)
    requires 0 < input < output && u + 1 < v && Dips(d, core, dip, lobe, reach) && Wide(core, dip, lobe, reach)
    requires core <= Center(u, output, input) - l as real <= dip
    requires core <= (l + 3) as real - Center(v, output, input) <= dip
    ensures m <= v && KeptAt(d, Place(m, output, input, l)) && KeptAt(d, Place(m, output, input, l + 3))
  {
    hide KeptAt, Place, Center, Pitch, Dips;
    var pitch := Pitch(output, input);
    PitchIs(output, input);
    m := FirstFurther(u, v, output, input, l, dip);
    NextCentre(m - 1, output, input);
    TwoSteps(u, v, output, input);
    var distance := Center(m, output, input) - l as real;
    BetweenDips(core, dip, pitch, Center(u, output, input) - l as real, Center(v, output, input) - l as real,
                Center(m - 1, output, input) - l as real, distance);
    EnlargedPlace(m, output, input, l);
    EnlargedPlace(m, output, input, l + 3);
    InBothLobes(d, core, dip, lobe, reach, distance);
    assert Place(m, output, input, l) == -distance && Place(m, output, input, l + 3) == 3.0 - distance;
  }

  /** A fall back from one row to the next: the row before them or the row after them keeps as many pixels, if the
      image goes on there. */
  lemma {:induction false} WideBeside(windows: seq<Window>, d: Details, core: real, dip: real, lobe: real, reach: real,
                                      u: nat, output: nat, input: nat, sharpenRatio: real, l: nat, r: nat)
    requires MadeBy(windows, d, output, input, sharpenRatio) && 0 < input < output && u + 1 < output
    requires Dips(d, core, dip, lobe, reach) && Wide(core, dip, lobe, reach) && d.window > 0.501
    requires r == l + 3 && r < input && (l > 0 || r < input - 1)
    requires core <= Center(u, output, input) - l as real <= dip
    requires core <= r as real - Center(u + 1, output, input) <= dip
    ensures LargestSize(windows) >= 4
  {
    hide WindowOf, ErasesAt, KeptAt, Place, Center, Pitch;
    NextCentre(u, output, input);
    if l > 0 {
      NextCentre(u - 1, output, input);
      EnlargedPlace(u - 1, output, input, l - 1);
      EnlargedPlace(u - 1, output, input, r - 1);
      RowHolds(windows, d, core, dip, lobe, reach, u - 1, output, input, sharpenRatio, l - 1, r - 1);
    } else {
      PitchIs(output, input);
      LastCentre(output, input);
      NextCentre(u + 1, output, input);
      EnlargedPlace(u + 2, output, input, l + 1);
      EnlargedPlace(u + 2, output, input, r + 1);
      RowHolds(windows, d, core, dip, lobe, reach, u + 2, output, input, sharpenRatio, l + 1, r + 1);
    }
  }

  /** The last centre lies beyond the last but one pixel. */
  lemma {:induction false} LastCentre(output: nat, input: nat)
    requires 0 < input < output
    ensures Center(output - 1, output, input) == input as real - 0.5 - 0.5 * Pitch(output, input)
  {
    hide Center;
    EnlargedCentres(output - 1, output - 1, output, input);
    var pitch := Pitch(output, input);
    assert pitch * output as real == input as real;
    Spread(pitch, output as real, -0.5);
  }

  /** Four pixels between two neighbouring rows in the dip make up the whole image only for four rows enlarged to six,
      with the dip at seven sixths. */
  lemma {:induction false} FourToSix(core: real, dip: real, u: nat, output: nat, input: nat)
    requires input == 4 < output && 1.0 <= core <= dip < 1.25 && dip - core < 3.0 - 2.0 * dip
    requires core <= Center(u, output, input) <= dip && core <= 3.0 - Center(u + 1, output, input) <= dip
    ensures output == 6 && u == 2 && Center(u, output, input) == 7.0 / 6.0 && Center(u + 1, output, input) == 11.0 / 6.0
  {
    hide Center;
    EnlargedCentres(u, u + 1, output, input);
    PitchIs(output, input);
    var pitch, p, q := Pitch(output, input), Center(u, output, input), 3.0 - Center(u + 1, output, input);
    assert pitch * output as real == 4.0;
    assert 2.0 * pitch * (u + 1) as real == 4.0 + p - q;
    EvenRows(pitch, u, output, p - q);
  }

  lemma {:induction false} EvenRows(pitch: real, u: nat, output: nat, difference: real)
    requires 0.5 < pitch < 1.0 && pitch * output as real == 4.0
    requires 2.0 * pitch * (u + 1) as real == 4.0 + difference && -pitch < difference < pitch
    ensures output == 6 && u == 2 && difference == 0.0 && pitch == 2.0 / 3.0
  {
    var rows := 2 * (u + 1) - output;
    assert pitch * rows as real == difference;
    if rows >= 1 { TimesAscends(pitch, 1.0, rows as real); }
    if rows <= -1 { TimesAscends(pitch, rows as real, -1.0); }
    assert rows == 0;
    if output >= 8 { TimesAscends(pitch, 8.0, output as real); }
    if output <= 4 { TimesAscends(pitch, output as real, 4.0); }
  }

  /** What a fall back of a wide filter spans, four pixels, some row keeps, but for one pair of sizes. */
  lemma {:induction false} WideSpans(windows: seq<Window>, d: Details, core: real, dip: real, lobe: real, reach: real,
                                     u: nat, v: nat, output: nat, input: nat, sharpenRatio: real)
    requires MadeBy(windows, d, output, input, sharpenRatio) && 0 < input < output && u < v < output
    requires Dips(d, core, dip, lobe, reach) && Wide(core, dip, lobe, reach) && d.window > 0.501
    requires FallsBack(windows[u], windows[v]) && !(input == 4 && output == 6 && SeventhsVanish(d))
    ensures Spans(windows[u], windows[v], LargestSize(windows))
  {
    hide WindowOf, ErasesAt, KeptAt, Place, Center, Pitch, Dips, LargestSize;
    FallBackDistances(d, core, dip, lobe, reach, u, v, output, input, sharpenRatio);
    var l, r := windows[v].left, windows[u].right;
    var p, q := Center(u, output, input) - l as real, r as real - Center(v, output, input);
    var step := Pitch(output, input) * (v - u) as real;
    PitchIs(output, input);
    PitchPositive(u, v, output, input);
    WideSize(core, dip, reach, p, q, step, r - l);
    if u + 1 < v {
      var m := WideFound(d, core, dip, lobe, reach, u, v, output, input, l);
      RowHolds(windows, d, core, dip, lobe, reach, m, output, input, sharpenRatio, l, r);
    } else if l > 0 || r < input - 1 {
      WideBeside(windows, d, core, dip, lobe, reach, u, output, input, sharpenRatio, l, r);
    } else {
      FourToSix(core, dip, u, output, input);
    }
  }

  lemma {:induction false} WideSize(core: real, dip: real, reach: real, p: real, q: real, step: real, n: int)
    requires 1.0 <= core <= p <= dip && core <= q <= dip && step > 0.0 && p + step < reach <= 2.0
    requires n as real == p + q + step && 2.0 * dip < 2.0 + core
    ensures n == 3
  {}

  /** The filter vanishes seven sixths from its centre. */
  predicate SeventhsVanish(d: Details) {
    !KeptAt(d, -7.0 / 6.0) && !KeptAt(d, 7.0 / 6.0)
  }

  /** A wide filter exhausts the row cache for no sizes but one: four rows enlarged to six, if it vanishes at seven
      sixths. */
  lemma {:induction false} WideNeverFull(windows: seq<Window>, d: Details, core: real, dip: real, lobe: real,
                                         reach: real, output: nat, input: nat, sharpenRatio: real)
    requires MadeBy(windows, d, output, input, sharpenRatio) && d.window > 0.501
    requires Dips(d, core, dip, lobe, reach) && Wide(core, dip, lobe, reach)
    requires !(input == 4 && output == 6 && SeventhsVanish(d))
    ensures NeverFull(windows)
  {
    hide WindowOf, ErasesAt, KeptAt, Place, Dips, LargestSize;
    forall u, v | 0 <= u < v < output && FallsBack(windows[u], windows[v])
      ensures Spans(windows[u], windows[v], LargestSize(windows))
    {
      if output <= input {
        ReducedKeepsOrder(d, core, dip, lobe, reach, u, v, output, input, sharpenRatio);
      } else {
        WideSpans(windows, d, core, dip, lobe, reach, u, v, output, input, sharpenRatio);
      }
    }
    SpansUnlessBack(windows);
    MadeStartInside(windows, d, output, input, sharpenRatio);
    SpansFitNeverFull(windows);
  }

  // ---------- the line that runs out ----------

  lemma {:induction false} SixCentres(u: nat)
    requires u < 6
    ensures Center(u, 6, 4) == 2.0 / 3.0 * (u as real + 0.5) - 0.5
  {
    EnlargedCentre(u, 6, 4);
  }

  /** A row of the six keeps at most three of the four pixels, the third and fourth one three. */
  lemma {:induction false} SixRows(d: Details, core: real, dip: real, lobe: real, reach: real, u: nat,
                                   sharpenRatio: real)
    requires u < 6 && Dips(d, core, dip, lobe, reach) && Wide(core, dip, lobe, reach) && d.window > 0.501
    requires 11.0 / 6.0 < lobe && SeventhsVanish(d) && !ErasesAt(d, u, 6, 4, sharpenRatio)
    ensures var w := WindowOf(d, u, 6, 4, sharpenRatio);
            && Size(w) <= 3
            && (u == 2 ==> w.left == 1 && w.right == 3)
            && (u == 3 ==> w.left == 0 && w.right == 2)
  {
    hide WindowOf, LeftPixel, RightPixel, ErasesAt, KeptAt, Place, Center;
    SixCentres(u);
    forall ix: int ensures Place(u, 6, 4, ix) == ix as real - Center(u, 6, 4) { EnlargedPlace(u, 6, 4, ix); }
    WindowEnds(d, u, 6, 4, sharpenRatio);
    if u == 2 {
      assert KeptAt(d, Place(u, 6, 4, 1)) && KeptAt(d, Place(u, 6, 4, 3));
      KeptHeld(d, core, dip, lobe, reach, u, 6, 4, sharpenRatio, 1);
      KeptHeld(d, core, dip, lobe, reach, u, 6, 4, sharpenRatio, 3);
    } else if u == 3 {
      assert KeptAt(d, Place(u, 6, 4, 0)) && KeptAt(d, Place(u, 6, 4, 2));
      KeptHeld(d, core, dip, lobe, reach, u, 6, 4, sharpenRatio, 0);
      KeptHeld(d, core, dip, lobe, reach, u, 6, 4, sharpenRatio, 2);
    }
  }

  /** And that pair of sizes does exhaust it: the fourth row falls back from the third at both ends. */
  lemma {:induction false} FourToSixFillsUp(windows: seq<Window>, d: Details, core: real, dip: real, lobe: real,
                                            reach: real, sharpenRatio: real)
    requires MadeBy(windows, d, 6, 4, sharpenRatio) && d.window > 0.501
    requires Dips(d, core, dip, lobe, reach) && Wide(core, dip, lobe, reach) && 11.0 / 6.0 < lobe
    requires SeventhsVanish(d)
    ensures !NeverFull(windows)
  {
    hide WindowOf, ErasesAt, KeptAt, Dips, Wide, NeverFull;
    forall u: nat | u < 6 ensures Size(windows[u]) <= 3 { SixRows(d, core, dip, lobe, reach, u, sharpenRatio); }
    SixRows(d, core, dip, lobe, reach, 2, sharpenRatio);
    SixRows(d, core, dip, lobe, reach, 3, sharpenRatio);
    assert Size(windows[2]) == 3;
    FallingBackFillsUp(windows, 2);
  }

  /** Exactly when a wide filter exhausts the row cache. */
  lemma {:induction false} WideFullIff(windows: seq<Window>, d: Details, core: real, dip: real, lobe: real,
                                       reach: real, output: nat, input: nat, sharpenRatio: real)
    requires MadeBy(windows, d, output, input, sharpenRatio) && d.window > 0.501
    requires Dips(d, core, dip, lobe, reach) && Wide(core, dip, lobe, reach) && 11.0 / 6.0 < lobe
    ensures NeverFull(windows) <==> !(input == 4 && output == 6 && SeventhsVanish(d))
  {
    hide MadeBy, Dips, Wide, NeverFull, SeventhsVanish;
    if input == 4 && output == 6 && SeventhsVanish(d) {
      FourToSixFillsUp(windows, d, core, dip, lobe, reach, sharpenRatio);
    } else {
      WideNeverFull(windows, d, core, dip, lobe, reach, output, input, sharpenRatio);
    }
  }
}
