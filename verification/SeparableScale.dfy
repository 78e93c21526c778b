// What the two passes of the resampler compute together: a separable double
// sum over the source, in either order, and what becomes of a constant colour.

module SeparableScale {
  import opened WeightedRows

  /** The weight the vertical pass gives effect to. */
  function Effective(weight: real): real {
    if Kept(weight) then weight else 0.0
  }

  function TotalKept(weights: seq<real>): real {
    if weights == [] then 0.0 else TotalKept(weights[..|weights| - 1]) + Effective(weights[|weights| - 1])
  }

  /** Horizontal sums of the source rows themselves, summed vertically. */
  function RowsLast(v: Window, h: Window, src: seq<seq<real>>, width: nat, c: nat): real
    requires Rectangular(src, CHANNELS * width) && c < CHANNELS
    requires v.weights == [] || 0 <= v.left <= v.left + |v.weights| <= |src|
    requires Inside(h, width)
    decreases |v.weights|
  {
    if v.weights == [] then 0.0
    else
      var n := |v.weights| - 1;
      RowsLast(v.(weights := v.weights[..n]), h, src, width, c)
        + Effective(v.weights[n]) * HorizontalSum(h.weights, h.left, src[v.left + n], c)
  }

  lemma {:induction false} HorizontalStep(ws: seq<real>, left: int, row: seq<real>, c: nat)
    requires ws != [] && c < CHANNELS && 0 <= left && CHANNELS * (left + |ws|) <= |row|
    ensures var n := |ws| - 1;
            HorizontalSum(ws, left, row, c) ==
              HorizontalSum(ws[..n], left, row, c) + ws[n] * row[CHANNELS * (left + n) + c]
  {}

  lemma {:induction false} ShareAt(a: seq<real>, weight: real, b: seq<real>, k: nat)
    requires k < |a| == |b|
    ensures AddShare(a, weight, b)[k] == a[k] + Effective(weight) * b[k]
  {}

  /** A horizontal sum is linear in the row. */
  lemma {:induction false} HorizontalLinear(ws: seq<real>, left: int, a: seq<real>, weight: real, b: seq<real>, c: nat)
    requires |a| == |b| && c < CHANNELS && (ws == [] || (0 <= left && CHANNELS * (left + |ws|) <= |a|))
    ensures HorizontalSum(ws, left, AddShare(a, weight, b), c) ==
            HorizontalSum(ws, left, a, c) + Effective(weight) * HorizontalSum(ws, left, b, c)
    decreases |ws|
  {
    hide AddShare, Kept, Effective;
    if ws != [] {
      var n, sum, e := |ws| - 1, AddShare(a, weight, b), Effective(weight);
      var at := CHANNELS * (left + n) + c;
      HorizontalLinear(ws[..n], left, a, weight, b, c);
      HorizontalStep(ws, left, sum, c);
      HorizontalStep(ws, left, a, c);
      HorizontalStep(ws, left, b, c);
      ShareAt(a, weight, b, at);
      hide HorizontalSum;
      Combine(HorizontalSum(ws[..n], left, sum, c), HorizontalSum(ws[..n], left, a, c),
              HorizontalSum(ws[..n], left, b, c),
              ws[n], sum[at], a[at], b[at], e);
    }
  }

  lemma {:induction false} Combine(sumP: real, sumA: real, sumB: real, w: real, p: real, a: real, b: real, e: real)
    requires sumP == sumA + e * sumB && p == a + e * b
    ensures sumP + w * p == (sumA + w * a) + e * (sumB + w * b)
  {}

  lemma {:induction false} HorizontalOfZero(ws: seq<real>, left: int, row: seq<real>, c: nat)
    requires c < CHANNELS && (ws == [] || (0 <= left && CHANNELS * (left + |ws|) <= |row|))
    requires forall k :: 0 <= k < |row| ==> row[k] == 0.0
    ensures HorizontalSum(ws, left, row, c) == 0.0
    decreases |ws|
  {
    if ws != [] { HorizontalOfZero(ws[..|ws| - 1], left, row, c); }
  }

  /** The passes commute: scaling vertically and then horizontally is the same double sum as
      scaling every source row horizontally and then summing vertically. */
  lemma {:induction false} PassesCommute(v: Window, h: Window, src: seq<seq<real>>, width: nat, c: nat)
    requires Rectangular(src, CHANNELS * width) && c < CHANNELS
    requires v.weights == [] || 0 <= v.left <= v.left + |v.weights| <= |src|
    requires Inside(h, width)
    ensures HorizontalSum(h.weights, h.left, SumOfRows(v.weights, v.left, src, CHANNELS * width), c) ==
            RowsLast(v, h, src, width, c)
    decreases |v.weights|
  {
    hide Effective, HorizontalSum, SumOfRows, VerticalSum;
    var length := CHANNELS * width;
    if v.weights == [] {
      NoRows(v.left, src, length);
      HorizontalOfZero(h.weights, h.left, SumOfRows([], v.left, src, length), c);
    } else {
      var shorter := v.(weights := v.weights[..|v.weights| - 1]);
      PassesCommute(shorter, h, src, width, c);
      PassesCommuteStep(v, h, src, width, c);
      RowsLastStep(v, h, src, width, c);
    }
  }

  lemma {:induction false} RowsLastStep(v: Window, h: Window, src: seq<seq<real>>, width: nat, c: nat)
    requires Rectangular(src, CHANNELS * width) && c < CHANNELS && Inside(h, width)
    requires v.weights != [] && 0 <= v.left <= v.left + |v.weights| <= |src|
    ensures var n := |v.weights| - 1;
            RowsLast(v, h, src, width, c) == RowsLast(v.(weights := v.weights[..n]), h, src, width, c)
              + Effective(v.weights[n]) * HorizontalSum(h.weights, h.left, src[v.left + n], c)
  {}

  lemma {:induction false} PassesCommuteStep(v: Window, h: Window, src: seq<seq<real>>, width: nat, c: nat)
    requires Rectangular(src, CHANNELS * width) && c < CHANNELS && Inside(h, width)
    requires v.weights != [] && 0 <= v.left <= v.left + |v.weights| <= |src|
    ensures var n := |v.weights| - 1;
            HorizontalSum(h.weights, h.left, SumOfRows(v.weights, v.left, src, CHANNELS * width), c) ==
            HorizontalSum(h.weights, h.left, SumOfRows(v.weights[..n], v.left, src, CHANNELS * width), c)
              + Effective(v.weights[n]) * HorizontalSum(h.weights, h.left, src[v.left + n], c)
  {
    var n, length := |v.weights| - 1, CHANNELS * width;
    LastShare(v.weights, v.left, src, length);
    HorizontalLinear(h.weights, h.left, SumOfRows(v.weights[..n], v.left, src, length), v.weights[n], src[v.left + n],
                     c);
  }

  // ---------- constant colour ----------

  ghost predicate OneColour(src: seq<seq<real>>, width: nat, colour: seq<real>) {
    && |colour| == CHANNELS && Rectangular(src, CHANNELS * width)
    && forall r, k :: 0 <= r < |src| && 0 <= k < CHANNELS * width ==> src[r][k] == colour[k % CHANNELS]
  }

  lemma {:induction false} HorizontalOfOneColour(ws: seq<real>, left: int, row: seq<real>, width: nat, c: nat,
                                                 value: real)
    requires |row| == CHANNELS * width && c < CHANNELS && (ws == [] || (0 <= left && left + |ws| <= width))
    requires forall k :: 0 <= k < |row| && k % CHANNELS == c ==> row[k] == value
    ensures HorizontalSum(ws, left, row, c) == Total(ws) * value
    decreases |ws|
  {
    if ws != [] {
      var n := |ws| - 1;
      HorizontalOfOneColour(ws[..n], left, row, width, c, value);
      assert (CHANNELS * (left + n) + c) % CHANNELS == c;
    }
  }

  lemma {:induction false} RowsAlikeStep(v: Window, h: Window, src: seq<seq<real>>, width: nat, c: nat, sum: real)
    requires Rectangular(src, CHANNELS * width) && c < CHANNELS && Inside(h, width)
    requires v.weights != [] && 0 <= v.left <= v.left + |v.weights| <= |src|
    requires forall r :: 0 <= r < |src| ==> HorizontalSum(h.weights, h.left, src[r], c) == sum
    ensures var shorter, e := v.(weights := v.weights[..|v.weights| - 1]), Effective(v.weights[|v.weights| - 1]);
            && RowsLast(v, h, src, width, c) == RowsLast(shorter, h, src, width, c) + e * sum
            && TotalKept(v.weights) == TotalKept(shorter.weights) + e
  {
    hide Effective, HorizontalSum;
  }

  lemma {:induction false} RowsAlike(v: Window, h: Window, src: seq<seq<real>>, width: nat, c: nat, sum: real)
    requires Rectangular(src, CHANNELS * width) && c < CHANNELS && Inside(h, width)
    requires v.weights == [] || 0 <= v.left <= v.left + |v.weights| <= |src|
    requires forall r :: 0 <= r < |src| ==> HorizontalSum(h.weights, h.left, src[r], c) == sum
    ensures RowsLast(v, h, src, width, c) == TotalKept(v.weights) * sum
    decreases |v.weights|
  {
    hide Effective, HorizontalSum, Rectangular, Inside;
    if v.weights != [] {
      var shorter := v.(weights := v.weights[..|v.weights| - 1]);
      RowsAlikeStep(v, h, src, width, c, sum);
      RowsAlike(shorter, h, src, width, c, sum);
      hide *;
      Factor(TotalKept(shorter.weights), Effective(v.weights[|v.weights| - 1]), sum);
    }
  }

  lemma {:induction false} Factor(a: real, b: real, x: real)
    ensures a * x + b * x == (a + b) * x
  {}

  lemma {:induction false} RowsOfOneColour(h: Window, src: seq<seq<real>>, width: nat, colour: seq<real>, c: nat)
    requires OneColour(src, width, colour) && c < CHANNELS && Inside(h, width)
    ensures forall r :: 0 <= r < |src| ==> HorizontalSum(h.weights, h.left, src[r], c) == Total(h.weights) * colour[c]
  {
    forall r | 0 <= r < |src| ensures HorizontalSum(h.weights, h.left, src[r], c) == Total(h.weights) * colour[c] {
      HorizontalOfOneColour(h.weights, h.left, src[r], width, c, colour[c]);
    }
  }

  /** An image of one colour comes out as that colour times the two totals of the weights. */
  lemma {:induction false} OneColourScales(v: Window, h: Window, src: seq<seq<real>>, width: nat, colour: seq<real>,
                                           c: nat)
    requires OneColour(src, width, colour) && c < CHANNELS && Inside(v, |src|) && Inside(h, width)
    ensures HorizontalPixel(h, VerticalRow(v, src, CHANNELS * width), width)[c] ==
            TotalKept(v.weights) * (Total(h.weights) * colour[c])
  {
    hide Total, TotalKept, Effective, Kept, HorizontalSum, VerticalSum, RowsLast;
    RowsOfOneColour(h, src, width, colour, c);
    RowsAlike(v, h, src, width, c, Total(h.weights) * colour[c]);
    PassesCommute(v, h, src, width, c);
  }

  /** No weight is nonzero and yet skipped. */
  ghost predicate NoGap(weights: seq<real>) {
    forall i :: 0 <= i < |weights| ==> Kept(weights[i]) || weights[i] == 0.0
  }

  lemma {:induction false} TotalWithoutGap(weights: seq<real>)
    requires NoGap(weights)
    ensures TotalKept(weights) == Total(weights)
  {
    if weights != [] { TotalWithoutGap(weights[..|weights| - 1]); }
  }

  /** When both axes' weights total one and none falls in the gap, an output pixel of a one-coloured image
      has that colour. */
  lemma {:induction false} OneColourStays(v: Window, h: Window, src: seq<seq<real>>, width: nat, colour: seq<real>)
    requires OneColour(src, width, colour) && Inside(v, |src|) && Inside(h, width)
    requires NoGap(v.weights) && Total(v.weights) == 1.0 && Total(h.weights) == 1.0
    ensures HorizontalPixel(h, VerticalRow(v, src, CHANNELS * width), width) == colour
  {
    TotalWithoutGap(v.weights);
    forall c | 0 <= c < CHANNELS
      ensures HorizontalPixel(h, VerticalRow(v, src, CHANNELS * width), width)[c] == colour[c]
    {
      OneColourScales(v, h, src, width, colour, c);
    }
  }

  // ---------- a single pixel ----------

  /** Nothing but one channel of one pixel. */
  ghost predicate OnePixel(src: seq<seq<real>>, width: nat, y: nat, x: nat, c: nat, value: real) {
    && Rectangular(src, CHANNELS * width)
    && forall r, k :: 0 <= r < |src| && 0 <= k < CHANNELS * width ==>
         src[r][k] == if r == y && k == CHANNELS * x + c then value else 0.0
  }

  lemma {:induction false} HorizontalOfPixel(ws: seq<real>, left: int, row: seq<real>, x: nat, c: nat, e: nat,
                                             value: real)
    requires c < CHANNELS && e < CHANNELS && (ws == [] || (0 <= left && CHANNELS * (left + |ws|) <= |row|))
    requires forall k :: 0 <= k < |row| ==> row[k] == if k == CHANNELS * x + c then value else 0.0
    ensures HorizontalSum(ws, left, row, e) == if e == c && left <= x < left + |ws| then ws[x - left] * value else 0.0
    decreases |ws|
  {
    if ws != [] { HorizontalOfPixel(ws[..|ws| - 1], left, row, x, c, e, value); }
  }

  lemma {:induction false} RowsOfPixel(v: Window, h: Window, src: seq<seq<real>>, width: nat, e: nat, y: nat,
                                       sum: real)
    requires Rectangular(src, CHANNELS * width) && e < CHANNELS && Inside(h, width)
    requires v.weights == [] || 0 <= v.left <= v.left + |v.weights| <= |src|
    requires forall r :: 0 <= r < |src| ==>
      HorizontalSum(h.weights, h.left, src[r], e) == if r == y then sum else 0.0
    ensures RowsLast(v, h, src, width, e) ==
      if v.left <= y < v.left + |v.weights| then Effective(v.weights[y - v.left]) * sum else 0.0
    decreases |v.weights|
  {
    hide Effective, HorizontalSum, Rectangular, Inside;
    if v.weights != [] {
      var shorter := v.(weights := v.weights[..|v.weights| - 1]);
      RowsOfPixel(shorter, h, src, width, e, y, sum);
    }
  }

  /** Where a source pixel goes: to every output pixel by the weights that the two windows give its row and its column,
      channel by channel. */
  lemma {:induction false} OnePixelScales(v: Window, h: Window, src: seq<seq<real>>, width: nat, y: nat, x: nat,
                                          c: nat, value: real, e: nat)
    requires OnePixel(src, width, y, x, c, value) && c < CHANNELS && e < CHANNELS && Inside(v, |src|)
      && Inside(h, width)
    ensures HorizontalPixel(h, VerticalRow(v, src, CHANNELS * width), width)[e] ==
      if e == c then Effective(WeightAt(v, y)) * (WeightAt(h, x) * value) else 0.0
  {
    hide Effective, Kept, HorizontalSum, VerticalSum, RowsLast;
    var sum := if e == c then WeightAt(h, x) * value else 0.0;
    forall r | 0 <= r < |src|
      ensures HorizontalSum(h.weights, h.left, src[r], e) == if r == y then sum else 0.0
    {
      HorizontalOfPixel(h.weights, h.left, src[r], x, c, e, if r == y then value else 0.0);
    }
    RowsOfPixel(v, h, src, width, e, y, sum);
    PassesCommute(v, h, src, width, e);
    NoEffect();
  }

  lemma {:induction false} NoEffect()
    ensures Effective(0.0) == 0.0
  {}
}
