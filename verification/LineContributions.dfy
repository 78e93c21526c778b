// Building the contribution windows of a whole output line: each row's slice
// of the weights is filled, adjusted in place and trimmed.

module LineContributions {
  import opened Options
  import opened Numbers
  import opened WeightedRows
  import opened ContributionWindows
  import opened ContributionWeights
  import opened SeparableScale

  /** The window of output pixel u as the code leaves it. */
  function WindowOf(d: Details, u: nat, output: nat, input: nat, sharpenRatio: real): Window
    requires output > 0 && input > 0 && u < output && d.window >= 0.0
  {
    WindowFits(d, u, output, input);
    Trimmed(LeftPixel(d, u, output, input),
            Adjusted(RawWeights(d, u, output, input), d.sharpenPercentGoal / 100.0, sharpenRatio))
  }

  /** Asks the filter; a weight next to nothing is rounded down to zero. */
  method Ask(d: Details, u: nat, output: nat, input: nat, ix: int) returns (add: real)
    requires output > 0 && input > 0
    ensures add == RawWeight(d, u, output, input, ix)
  {
    add := d.filter(DownscaleFactor(output, input) * (ix as real - Center(u, output, input)));
    if Magnitude(add) <= NOTHING { add := 0.0; }
  }

  /** Fills the slice from the filter; the total of the weights and minus that of the negative ones. */
  method Fill(weights: array<real>, d: Details, u: nat, output: nat, input: nat, left: int, right: int)
    returns (total: real, totalNegative: real)
    requires output > 0 && input > 0 && u < output && d.window >= 0.0
    requires left == LeftPixel(d, u, output, input) <= right == RightPixel(d, u, output, input)
    requires right - left + 1 <= weights.Length
    modifies weights
    ensures weights[..right - left + 1] == RawWeights(d, u, output, input)
    ensures total == Total(weights[..right - left + 1]) && totalNegative == NegativeMass(weights[..right - left + 1])
  {
    hide RawWeight, LeftPixel, RightPixel, Total, NegativeMass;
    total, totalNegative := 0.0, 0.0;
    NoMasses();
    assert weights[..0] == [];
    var ix := left;
    while ix <= right
      invariant left <= ix <= right + 1
      invariant forall i :: 0 <= i < ix - left ==> weights[i] == RawWeight(d, u, output, input, left + i)
      invariant total == Total(weights[..ix - left]) && totalNegative == NegativeMass(weights[..ix - left])
    {
      ghost var before := weights[..ix - left];
      var add := Ask(d, u, output, input, ix);
      weights[ix - left] := add;
      AppendMasses(before, add);
      assert weights[..ix + 1 - left] == before + [add];
      total := total + add;
      totalNegative := totalNegative - (if add < 0.0 then add else 0.0);
      ix := ix + 1;
    }
  }

  lemma {:induction false} NoMasses()
    ensures Total([]) == 0.0 && NegativeMass([]) == 0.0
  {}

  lemma {:induction false} AppendMasses(ws: seq<real>, w: real)
    ensures Total(ws + [w]) == Total(ws) + w
    ensures NegativeMass(ws + [w]) == NegativeMass(ws) - (if w < 0.0 then w else 0.0)
  {
    assert (ws + [w])[..|ws|] == ws;
  }

  /** Applies the factors in place. */
  method Adjust(weights: array<real>, count: nat, negative: real, positive: real)
    requires count <= weights.Length
    modifies weights
    ensures weights[..count] == Scaled(old(weights[..count]), negative, positive)
  {
    for ix := 0 to count
      invariant forall i :: 0 <= i < ix ==> weights[i] == ScaledWeight(old(weights[i]), negative, positive)
      invariant forall i :: ix <= i < count ==> weights[i] == old(weights[i])
    {
      if weights[ix] < 0.0 {
        weights[ix] := weights[ix] * negative;
      } else {
        weights[ix] := weights[ix] * positive;
      }
    }
  }

  lemma {:induction false} WithoutNegatives(ws: seq<real>, negative: real)
    requires NegativeMass(ws) == 0.0
    ensures forall i :: 0 <= i < |ws| ==> ws[i] >= 0.0
    ensures Scaled(ws, negative, 1.0) == ws
  {
    if ws != [] {
      var n := |ws| - 1;
      WithoutNegatives(ws[..n], negative);
      forall i | 0 <= i < |ws| ensures ws[i] >= 0.0 { assert i < n ==> ws[..n][i] == ws[i]; }
    }
  }

  /** Moves the ends of the window past the zero weights there. */
  method Trim(weights: array<real>, left: int, count: nat) returns (l: int, r: int, skip: nat)
    requires 0 < count <= weights.Length
    ensures var w := Trimmed(left, weights[..count]);
            && l == w.left && r == w.right && skip == LeadingZeros(weights[..count])
            && (l <= r ==> skip + (r - l + 1) <= count && weights[skip..skip + (r - l + 1)] == w.weights)
  {
    hide WithoutLastZeros, LeadingZeros;
    ghost var ws := weights[..count];
    r := left + count - 1;
    var iix := count - 1;
    while iix >= 0
      invariant -1 <= iix < count && r == left + iix
      invariant forall i :: iix < i < count ==> weights[i] == 0.0
      decreases iix
    {
      if weights[iix] != 0.0 { break; }
      r := r - 1;
      iix := iix - 1;
    }
    KeptLength(ws, iix + 1);
    l, skip := left, 0;
    while skip < count
      invariant skip <= count && l == left + skip
      invariant forall i :: 0 <= i < skip ==> weights[i] == 0.0
    {
      if weights[skip] != 0.0 { break; }
      skip := skip + 1;
      l := l + 1;
    }
    LeadingLength(ws, skip);
    if skip < count { LastNonzeroKept(ws); }
  }

  lemma {:induction false} KeptLength(ws: seq<real>, n: nat)
    requires n <= |ws| && (n > 0 ==> ws[n - 1] != 0.0) && forall i :: n <= i < |ws| ==> ws[i] == 0.0
    ensures |WithoutLastZeros(ws)| == n
  {
    if n < |ws| {
      KeptLength(ws[..|ws| - 1], n);
    }
  }

  lemma {:induction false} LeadingLength(ws: seq<real>, n: nat)
    requires n <= |ws| && (n < |ws| ==> ws[n] != 0.0) && forall i :: 0 <= i < n ==> ws[i] == 0.0
    ensures LeadingZeros(ws) == n
  {}

  /** The factors that turn the raw weights into the adjusted ones. */
  method Factors(ghost raw: seq<real>, total: real, totalNegative: real, goal: real, sharpenRatio: real)
    returns (negative: real, positive: real)
    requires total == Total(raw) && totalNegative == NegativeMass(raw)
    ensures Scaled(raw, negative, positive) == Adjusted(raw, goal, sharpenRatio)
  {
    hide Total, NegativeMass, PositiveMass, ScaledWeight, SharpenFactor;
    TotalIsMasses(raw);
    if total <= 0.0 || goal > sharpenRatio {
      var totalPositive := total + totalNegative;
      assert totalPositive == PositiveMass(raw);
      positive := 1.0;
      if totalNegative == 0.0 {
        negative := 1.0;  // no weight to apply it to
        WithoutNegatives(raw, negative);
      } else {
        negative := SharpenFactor(goal, totalPositive, totalNegative);
      }
    } else {
      negative, positive := 1.0 / total, 1.0 / total;
    }
  }

  /** One output pixel's window; None would be a window larger than the allocation. */
  method CreateWindow(weights: array<real>, d: Details, u: nat, output: nat, input: nat, sharpenRatio: real)
    returns (w: Option<Window>)
    requires output > 0 && input > 0 && u < output && d.window >= 0.0
    requires weights.Length == AllocatedSize(d, output, input)
    modifies weights
    ensures w == Some(WindowOf(d, u, output, input, sharpenRatio))
  {
    hide RawWeight, RawWeights, Total, NegativeMass, PositiveMass, Scaled, ScaledWeight, Adjusted, Trimmed, LeftPixel,
      RightPixel;
    WindowFits(d, u, output, input);
    ghost var goal := d.sharpenPercentGoal / 100.0;
    var left := LeftPixel(d, u, output, input);
    var right := RightPixel(d, u, output, input);
    if right - left + 1 > weights.Length { return None; }
    var total, totalNegative := Fill(weights, d, u, output, input, left, right);
    ghost var raw := weights[..right - left + 1];
    var negative, positive := Factors(raw, total, totalNegative, d.sharpenPercentGoal / 100.0, sharpenRatio);
    Adjust(weights, right - left + 1, negative, positive);
    assert weights[..right - left + 1] == Adjusted(raw, goal, sharpenRatio);
    var l, r, skip := Trim(weights, left, right - left + 1);
    TrimmedShape(left, weights[..right - left + 1]);
    w := Some(Window(l, r, if l <= r then weights[skip..skip + (r - l + 1)] else []));
  }

  lemma {:induction false} TrimmedShape(left: int, ws: seq<real>)
    ensures var w := Trimmed(left, ws);
            w == Window(w.left, w.right, w.weights) && (w.left > w.right ==> w.weights == [])
  {}

  /** The windows of a whole line, every one inside the source. */
  method CreateLine(d: Details, output: nat, input: nat, sharpenRatio: real) returns (line: Option<seq<Window>>)
    requires output > 0 && input > 0 && d.window >= 0.0
    ensures line.Some? && |line.value| == output && AllInside(line.value, input)
    ensures forall u :: 0 <= u < output ==> line.value[u] == WindowOf(d, u, output, input, sharpenRatio)
  {
    hide WindowOf, Inside;
    var windows := [];
    AllocationReaches(d, output, input);
    var size := AllocatedSize(d, output, input);
    for u := 0 to output
      invariant |windows| == u && AllInside(windows, input)
      invariant forall v :: 0 <= v < u ==> windows[v] == WindowOf(d, v, output, input, sharpenRatio)
    {
      var weights := new real[size](i => 0.0);
      var w := CreateWindow(weights, d, u, output, input, sharpenRatio);
      if w.None? { return None; }
      WindowOfInside(d, u, output, input, sharpenRatio);
      windows := windows + [w.value];
    }
    return Some(windows);
  }

  lemma {:induction false} AdjustedLength(ws: seq<real>, goal: real, sharpenRatio: real)
    ensures |Adjusted(ws, goal, sharpenRatio)| == |ws|
  {}

  lemma {:induction false} WindowOfInside(d: Details, u: nat, output: nat, input: nat, sharpenRatio: real)
    requires output > 0 && input > 0 && u < output && d.window >= 0.0
    ensures Inside(WindowOf(d, u, output, input, sharpenRatio), input)
  {
    hide LeftEdge, Trimmed, Adjusted, Inside;
    WindowFits(d, u, output, input);
    var raw := RawWeights(d, u, output, input);
    assert |raw| == RightPixel(d, u, output, input) - LeftPixel(d, u, output, input) + 1;
    AdjustedLength(raw, d.sharpenPercentGoal / 100.0, sharpenRatio);
    TrimmedEnds(LeftPixel(d, u, output, input), Adjusted(raw, d.sharpenPercentGoal / 100.0, sharpenRatio), input);
  }

  lemma {:induction false} TrimmedAt(left: int, ws: seq<real>, i: nat)
    requires i < |ws|
    ensures var w := Trimmed(left, ws);
            && |w.weights| == (if w.left <= w.right then w.right - w.left + 1 else 0)
            && WeightAt(w, left + i) == ws[i]
  {
    if LeadingZeros(ws) < |ws| { LastNonzeroKept(ws); }
  }

  /** What weight the finished window gives to each pixel of the untrimmed one: the filter's over the total of all; or,
      when sharpening, the filter's own unless it is negative, and then times goal and positive mass over the negative
      mass. */
  lemma {:induction false} WindowWeights(d: Details, u: nat, output: nat, input: nat, sharpenRatio: real, ix: int)
    requires output > 0 && input > 0 && u < output && d.window >= 0.0
    requires LeftPixel(d, u, output, input) <= ix <= RightPixel(d, u, output, input)
    ensures var w := WindowOf(d, u, output, input, sharpenRatio);
            |w.weights| == if w.left <= w.right then w.right - w.left + 1 else 0
    ensures var raw, goal := RawWeights(d, u, output, input), d.sharpenPercentGoal / 100.0;
            var weight := WeightAt(WindowOf(d, u, output, input, sharpenRatio), ix);
            var asked := RawWeight(d, u, output, input, ix);
            && (!Sharpens(raw, goal, sharpenRatio) ==> weight * Total(raw) == asked)
            && (Sharpens(raw, goal, sharpenRatio) && asked >= 0.0 ==> weight == asked)
            && (Sharpens(raw, goal, sharpenRatio) && asked < 0.0 ==>
                  weight * NegativeMass(raw) == asked * (goal * PositiveMass(raw)))
  {
    hide LeftPixel, RightPixel, Trimmed, Adjusted, Sharpens, Total, NegativeMass, PositiveMass, RawWeight, WeightAt;
    var raw, goal := RawWeights(d, u, output, input), d.sharpenPercentGoal / 100.0;
    var left := LeftPixel(d, u, output, input);
    assert raw[ix - left] == RawWeight(d, u, output, input, ix);
    AdjustedLength(raw, goal, sharpenRatio);
    TrimmedAt(left, Adjusted(raw, goal, sharpenRatio), ix - left);
    if Sharpens(raw, goal, sharpenRatio) {
      SharpenedWeights(raw, goal, sharpenRatio);
    } else {
      NormalisedWeights(raw, goal, sharpenRatio);
    }
  }

  lemma {:induction false} WindowOfTotal(d: Details, u: nat, output: nat, input: nat, sharpenRatio: real)
    requires output > 0 && input > 0 && u < output && d.window >= 0.0
    requires !Sharpens(RawWeights(d, u, output, input), d.sharpenPercentGoal / 100.0, sharpenRatio)
    ensures Total(WindowOf(d, u, output, input, sharpenRatio).weights) == 1.0
  {
    var raw, goal := RawWeights(d, u, output, input), d.sharpenPercentGoal / 100.0;
    hide RawWeights, LeftPixel, RightPixel, Trimmed, Adjusted, Sharpens, Total;
    NormalisedTotal(raw, goal, sharpenRatio);
    TrimmedTotal(LeftPixel(d, u, output, input), Adjusted(raw, goal, sharpenRatio));
  }

  /** At any sizes, an image of one colour scales to that colour at every output pixel whose weights are
      normalised on both axes and leave no vertical weight in the gap. */
  lemma {:induction false} OneColourScalesToItself(
    d: Details, y: nat, height: nat, x: nat, width: nat, sharpenRatio: real,
    src: seq<seq<real>>, srcWidth: nat, colour: seq<real>)
    requires |src| > 0 && srcWidth > 0 && y < height && x < width && d.window >= 0.0
    requires OneColour(src, srcWidth, colour)
    requires !Sharpens(RawWeights(d, y, height, |src|), d.sharpenPercentGoal / 100.0, sharpenRatio)
    requires !Sharpens(RawWeights(d, x, width, srcWidth), d.sharpenPercentGoal / 100.0, sharpenRatio)
    requires NoGap(WindowOf(d, y, height, |src|, sharpenRatio).weights)
    ensures var v, h := WindowOf(d, y, height, |src|, sharpenRatio), WindowOf(d, x, width, srcWidth, sharpenRatio);
            && Inside(v, |src|) && Inside(h, srcWidth)
            && HorizontalPixel(h, VerticalRow(v, src, CHANNELS * srcWidth), srcWidth) == colour
  {
    hide WindowOf, RawWeights, LeftPixel, RightPixel, Sharpens, Inside, NoGap, Total, HorizontalPixel, VerticalRow;
    WindowOfInside(d, y, height, |src|, sharpenRatio);
    WindowOfInside(d, x, width, srcWidth, sharpenRatio);
    WindowOfTotal(d, y, height, |src|, sharpenRatio);
    WindowOfTotal(d, x, width, srcWidth, sharpenRatio);
    OneColourStays(WindowOf(d, y, height, |src|, sharpenRatio), WindowOf(d, x, width, srcWidth, sharpenRatio), src,
                   srcWidth, colour);
  }
}
