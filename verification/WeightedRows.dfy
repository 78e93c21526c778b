// Contribution windows and the weighted sums of rows and pixels they stand for.

module WeightedRows {
  import opened Numbers

  /** The source rows (or pixels) left..right and their weights that make up one output; none when right < left. */
  datatype Window = Window(left: int, right: int, weights: seq<real>)

  function Size(w: Window): int {
    w.right - w.left + 1
  }

  /** The window lies within this many inputs and has a weight for each of its own; or it has none at all. */
  predicate Inside(w: Window, inputs: nat) {
    if Size(w) <= 0 then w.weights == [] else 0 <= w.left && w.right < inputs && |w.weights| == Size(w)
  }

  /** The weight a window gives to a source pixel; none outside it. */
  function WeightAt(w: Window, ix: int): real
    requires |w.weights| == if w.left <= w.right then w.right - w.left + 1 else 0
  {
    if w.left <= ix <= w.right then w.weights[ix - w.left] else 0.0
  }

  const NOTHING := 0.00000002

  /** Weights this close to zero are skipped by the vertical pass. */
  predicate Kept(weight: real) {
    Magnitude(weight) > NOTHING
  }

  function Total(weights: seq<real>): real {
    if weights == [] then 0.0 else Total(weights[..|weights| - 1]) + weights[|weights| - 1]
  }

  predicate Rectangular(src: seq<seq<real>>, length: nat) {
    forall r :: 0 <= r < |src| ==> |src[r]| == length
  }

  /** The weighted sum of column k over the rows from left on, skipped weights left out. */
  function VerticalSum(weights: seq<real>, left: int, src: seq<seq<real>>, length: nat, k: nat): real
    requires Rectangular(src, length) && k < length
    requires weights == [] || 0 <= left <= left + |weights| <= |src|
  {
    if weights == [] then 0.0
    else
      var n := |weights| - 1;
      VerticalSum(weights[..n], left, src, length, k) + if Kept(weights[n]) then weights[n] * src[left + n][k] else 0.0
  }

  /** The weighted sum of whole rows. */
  function SumOfRows(weights: seq<real>, left: int, src: seq<seq<real>>, length: nat): (row: seq<real>)
    requires Rectangular(src, length)
    requires weights == [] || 0 <= left <= left + |weights| <= |src|
    ensures |row| == length && forall k :: 0 <= k < length ==> row[k] == VerticalSum(weights, left, src, length, k)
  {
    seq(length, k requires 0 <= k < length => VerticalSum(weights, left, src, length, k))
  }

  /** The output row of the vertical pass. */
  function VerticalRow(w: Window, src: seq<seq<real>>, length: nat): (row: seq<real>)
    requires Rectangular(src, length) && Inside(w, |src|)
    ensures |row| == length
  {
    SumOfRows(w.weights, w.left, src, length)
  }

  const CHANNELS: nat := 4

  /** The weighted sum of channel c over the pixels from left on. */
  function HorizontalSum(weights: seq<real>, left: int, row: seq<real>, c: nat): real
    requires weights == [] || (0 <= left && CHANNELS * (left + |weights|) <= |row|)
    requires c < CHANNELS
  {
    if weights == [] then 0.0
    else
      var n := |weights| - 1;
      HorizontalSum(weights[..n], left, row, c) + weights[n] * row[CHANNELS * (left + n) + c]
  }

  /** One output pixel of the horizontal pass. */
  function HorizontalPixel(w: Window, row: seq<real>, width: nat): (pixel: seq<real>)
    requires |row| == CHANNELS * width && Inside(w, width)
    ensures |pixel| == CHANNELS
    ensures forall c :: 0 <= c < CHANNELS ==> pixel[c] == HorizontalSum(w.weights, w.left, row, c)
  {
    seq(CHANNELS, c requires 0 <= c < CHANNELS => HorizontalSum(w.weights, w.left, row, c))
  }

  predicate AllInside(windows: seq<Window>, inputs: nat) {
    forall u :: 0 <= u < |windows| ==> Inside(windows[u], inputs)
  }

  /** The output row of the horizontal pass, pixel after pixel. */
  function HorizontalRow(windows: seq<Window>, row: seq<real>, width: nat): (dest: seq<real>)
    requires |row| == CHANNELS * width && AllInside(windows, width)
    ensures |dest| == CHANNELS * |windows|
  {
    if windows == [] then []
    else
      var n := |windows| - 1;
      HorizontalRow(windows[..n], row, width) + HorizontalPixel(windows[n], row, width)
  }

  /** A row with the share of one more input row added. */
  function AddShare(sum: seq<real>, weight: real, input: seq<real>): (row: seq<real>)
    requires |sum| == |input|
    ensures |row| == |sum|
    ensures forall k :: 0 <= k < |sum| ==> row[k] == sum[k] + if Kept(weight) then weight * input[k] else 0.0
  {
    seq(|sum|, k requires 0 <= k < |sum| => sum[k] + if Kept(weight) then weight * input[k] else 0.0)
  }

  lemma {:induction false} NoRows(left: int, src: seq<seq<real>>, length: nat)
    requires Rectangular(src, length)
    ensures forall k :: 0 <= k < length ==> SumOfRows([], left, src, length)[k] == 0.0
  {}

  lemma {:induction false} LastShare(weights: seq<real>, left: int, src: seq<seq<real>>, length: nat)
    requires Rectangular(src, length) && weights != [] && 0 <= left <= left + |weights| <= |src|
    ensures var n := |weights| - 1;
            SumOfRows(weights, left, src, length) ==
            AddShare(SumOfRows(weights[..n], left, src, length), weights[n], src[left + n])
  {
    var n := |weights| - 1;
    var after, sum := SumOfRows(weights, left, src, length), SumOfRows(weights[..n], left, src, length);
    forall k | 0 <= k < length ensures after[k] == AddShare(sum, weights[n], src[left + n])[k] {
      assert after[k] == VerticalSum(weights, left, src, length, k);
      assert sum[k] == VerticalSum(weights[..n], left, src, length, k);
    }
  }

  lemma {:induction false} NextRow(w: Window, src: seq<seq<real>>, length: nat, row: nat)
    requires Rectangular(src, length) && Inside(w, |src|) && w.left <= row <= w.right
    ensures SumOfRows(w.weights[..row + 1 - w.left], w.left, src, length) ==
            AddShare(SumOfRows(w.weights[..row - w.left], w.left, src, length), w.weights[row - w.left], src[row])
  {
    var n := row - w.left;
    assert w.weights[..n + 1][..n] == w.weights[..n];
    LastShare(w.weights[..n + 1], w.left, src, length);
  }
}
