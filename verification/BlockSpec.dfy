// Scaling a block of 8 by 8 samples down with fixed-point weights: the exact
// double sum, the tables, and what they promise.

module BlockSpec {
  import opened Numbers
  import opened Memory

  /** What one output row (or column) takes: weights for input rows (or columns) from start on, totalling a power of
      two. */
  datatype Taps = Taps(start: nat, weights: seq<int>, bits: nat)

  function Pow2(n: nat): (p: nat)
    ensures p > 0
  {
    if n == 0 then 1 else 2 * Pow2(n - 1)
  }

  function Total(w: seq<int>, n: nat): int
    requires n <= |w|
  {
    if n == 0 then 0 else Total(w, n - 1) + w[n - 1]
  }

  function AbsTotal(w: seq<int>, n: nat): nat
    requires n <= |w|
  {
    if n == 0 then 0 else AbsTotal(w, n - 1) + Abs(w[n - 1])
  }

  predicate Fits(t: Taps) {
    && 1 <= |t.weights| && t.start + |t.weights| <= 8 && t.bits >= 1
    && Total(t.weights, |t.weights|) == Pow2(t.bits) && AbsTotal(t.weights, |t.weights|) <= 512
  }

  predicate AllFit(table: seq<Taps>) {
    forall k :: 0 <= k < |table| ==> Fits(table[k])
  }

  /** The taps of the n by n scaler. */
  function Table(n: nat): (table: seq<Taps>)
    requires 1 <= n <= 7
    ensures |table| == n
  {
    if n == 1 then [Taps(0, [47, 60, 71, 78, 78, 71, 60, 47], 9)]
    else if n == 2 then [Taps(0, [48, 67, 67, 48, 22, 4], 8), Taps(2, [4, 22, 48, 67, 67, 48], 8)]
    else if n == 3 then
      [Taps(0, [80, 103, 62, 11], 8), Taps(1, [2, 39, 87, 87, 39, 2], 8), Taps(4, [11, 62, 103, 80], 8)]
    else if n == 4 then [Taps(0, [117, 117, 22], 8), Taps(1, [21, 107, 107, 21], 8),
                         Taps(3, [21, 107, 107, 21], 8), Taps(5, [22, 117, 117], 8)]
    else if n == 5 then [Taps(0, [78, 51, -1], 7), Taps(0, [-2, 32, 79, 19], 7), Taps(2, [1, 31, 31, 1], 6),
                         Taps(4, [19, 79, 32, -2], 7), Taps(5, [-1, 51, 78], 7)]
    else if n == 6 then [Taps(0, [6, 2], 3), Taps(0, [-1, 33, 33, -1], 6), Taps(2, [31, 92, 5], 7),
                         Taps(3, [5, 92, 31], 7), Taps(4, [-1, 33, 33, -1], 6), Taps(6, [2, 6], 3)]
    else [Taps(0, [29, 3], 5), Taps(0, [-2, 103, 27], 7), Taps(1, [-3, 86, 45], 7), Taps(2, [-3, 67, 67, -3], 7),
          Taps(4, [45, 86, -3], 7), Taps(5, [27, 103, -2], 7), Taps(6, [3, 29], 5)]
  }

  // ---------- the tables ----------

  lemma {:induction false} TotalStep(w: seq<int>, n: nat)
    requires n < |w|
    ensures Total(w, n + 1) == Total(w, n) + w[n] && AbsTotal(w, n + 1) == AbsTotal(w, n) + Abs(w[n])
    ensures Total(w, 0) == 0 && AbsTotal(w, 0) == 0
  {}

  lemma {:induction false} Totals(w: seq<int>)
    requires 2 <= |w| <= 4
    ensures Total(w, |w|) == w[0] + w[1] + (if |w| > 2 then w[2] else 0) + (if |w| > 3 then w[3] else 0)
    ensures AbsTotal(w, |w|) ==
      Abs(w[0]) + Abs(w[1]) + (if |w| > 2 then Abs(w[2]) else 0) + (if |w| > 3 then Abs(w[3]) else 0)
  {
    TotalStep(w, 0);
    TotalStep(w, 1);
    if |w| > 2 { TotalStep(w, 2); }
    if |w| > 3 { TotalStep(w, 3); }
  }

  lemma {:induction false} LongTotals(w: seq<int>)
    requires |w| == 6 || |w| == 8
    ensures Total(w, |w|) == w[0] + w[1] + w[2] + w[3] + w[4] + w[5] + (if |w| == 8 then w[6] + w[7] else 0)
    ensures AbsTotal(w, |w|) == Abs(w[0]) + Abs(w[1]) + Abs(w[2]) + Abs(w[3]) + Abs(w[4]) + Abs(w[5])
                                  + (if |w| == 8 then Abs(w[6]) + Abs(w[7]) else 0)
  {
    TotalStep(w, 0);
    TotalStep(w, 1);
    TotalStep(w, 2);
    TotalStep(w, 3);
    TotalStep(w, 4);
    TotalStep(w, 5);
    if |w| == 8 {
      TotalStep(w, 6);
      TotalStep(w, 7);
    }
  }

  lemma {:induction false} Powers()
    ensures Pow2(3) == 8 && Pow2(5) == 32 && Pow2(6) == 64 && Pow2(7) == 128 && Pow2(8) == 256 && Pow2(9) == 512
  {
    assert Pow2(3) == 8;
    assert Pow2(5) == 32;
    assert Pow2(7) == 128;
  }

  /** Every weight of every table: the entries add up to a power of two. */
  lemma {:induction false} TablesFit(n: nat)
    requires 1 <= n <= 7
    ensures AllFit(Table(n))
  {
    forall k | 0 <= k < n ensures Fits(Table(n)[k]) {
      if n <= 4 { SmallTableFits(n, k); } else { LargeTableFits(n, k); }
    }
  }

  lemma {:induction false} SmallTableFits(n: nat, k: nat)
    requires 1 <= n <= 4 && k < n
    ensures Fits(Table(n)[k])
  {
    hide Total, AbsTotal, Pow2;
    Powers();
    var t := Table(n)[k];
    if |t.weights| <= 4 { Totals(t.weights); } else { LongTotals(t.weights); }
  }

  lemma {:induction false} LargeTableFits(n: nat, k: nat)
    requires 5 <= n <= 7 && k < n
    ensures Fits(Table(n)[k])
  {
    hide Total, AbsTotal, Pow2;
    Powers();
    Totals(Table(n)[k].weights);
  }

  // ---------- the double sum ----------

  /** The 64 samples of a block, row by row. */
  predicate IsBlock(block: seq<int>, limit: nat) {
    |block| == 64 && forall k :: 0 <= k < 64 ==> 0 <= block[k] <= limit
  }

  /** The weighted sum down column i over the first n taps. */
  function Down(t: Taps, block: seq<int>, i: nat, n: nat): int
    requires |block| == 64 && n <= |t.weights| && t.start + |t.weights| <= 8 && i < 8
  {
    if n == 0 then 0 else Down(t, block, i, n - 1) + t.weights[n - 1] * block[(t.start + n - 1) * 8 + i]
  }

  /** The column sums of an output row. */
  function RowSums(t: Taps, block: seq<int>): (sums: seq<int>)
    requires |block| == 64 && t.start + |t.weights| <= 8
    ensures |sums| == 8
  {
    seq(8, i requires 0 <= i < 8 => Down(t, block, i, |t.weights|))
  }

  /** The weighted sum across column sums over the first n taps. */
  function Across(t: Taps, sums: seq<int>, n: nat): int
    requires |sums| == 8 && n <= |t.weights| && t.start + |t.weights| <= 8
  {
    if n == 0 then 0 else Across(t, sums, n - 1) + t.weights[n - 1] * sums[t.start + n - 1]
  }

  /** The exact double sum of the samples under an output pixel. */
  function DoubleSum(row: Taps, column: Taps, block: seq<int>): int
    requires |block| == 64 && row.start + |row.weights| <= 8 && column.start + |column.weights| <= 8
  {
    Across(column, RowSums(row, block), |column.weights|)
  }

  /** Half of the divisor added for rounding; none left below zero, what is far too large white, the rest looked up. */
  function Finished(sum: int, bits: nat, lut: seq<byte>): byte
    requires |lut| == 4096 && bits >= 1
  {
    var s := sum + Pow2(bits - 1);
    if s < 0 then 0 else if s >= 4096 * Pow2(bits) then 255 else LutIndex(s, Pow2(bits)); lut[s / Pow2(bits)]
  }

  /** No lookup outside the table's 4096 entries. */
  lemma {:induction false} LutIndex(s: nat, p: nat)
    requires p > 0 && s < 4096 * p
    ensures 0 <= s / p < 4096
  {
    Multiples(s / p - 4095, p);
    assert (s / p - 4095) * p == s / p * p - 4095 * p;
  }

  /** What one output pixel is. */
  function ScaledPixel(row: Taps, column: Taps, block: seq<int>, lut: seq<byte>): byte
    requires |block| == 64 && Fits(row) && Fits(column) && |lut| == 4096
  {
    Finished(DoubleSum(row, column, block), row.bits + column.bits, lut)
  }

  // ---------- sizes ----------

  lemma {:induction false} ProductBound(w: int, x: int, limit: nat)
    requires Abs(x) <= limit
    ensures Abs(w * x) <= Times(Abs(w), limit)
  {
    if w >= 0 {
      Spread(w, x, limit);
    } else {
      Spread(-w, x, limit);
      assert -w * x == -(w * x);
    }
  }

  lemma {:induction false} Spread(w: nat, x: int, limit: nat)
    requires -(limit as int) <= x <= limit
    ensures -(Times(w, limit) as int) <= w * x <= Times(w, limit)
  {
    assert w * (limit - x) >= 0 && w * (limit + x) >= 0;
  }

  lemma {:induction false} DownBound(t: Taps, block: seq<int>, i: nat, n: nat, limit: nat)
    requires IsBlock(block, limit) && n <= |t.weights| && t.start + |t.weights| <= 8 && i < 8
    ensures Abs(Down(t, block, i, n)) <= Times(AbsTotal(t.weights, n), limit)
  {
    Distributes(0, 0, limit);
    if n > 0 {
      DownBound(t, block, i, n - 1, limit);
      ProductBound(t.weights[n - 1], block[(t.start + n - 1) * 8 + i], limit);
      Distributes(AbsTotal(t.weights, n - 1), Abs(t.weights[n - 1]), limit);
    }
  }

  lemma {:induction false} AcrossBound(t: Taps, sums: seq<int>, n: nat, limit: nat)
    requires |sums| == 8 && n <= |t.weights| && t.start + |t.weights| <= 8
    requires forall i :: 0 <= i < 8 ==> Abs(sums[i]) <= limit
    ensures Abs(Across(t, sums, n)) <= Times(AbsTotal(t.weights, n), limit)
  {
    Distributes(0, 0, limit);
    if n > 0 {
      AcrossBound(t, sums, n - 1, limit);
      ProductBound(t.weights[n - 1], sums[t.start + n - 1], limit);
      Distributes(AbsTotal(t.weights, n - 1), Abs(t.weights[n - 1]), limit);
    }
  }

  lemma {:induction false} AbsTotalGrows(w: seq<int>, m: nat, n: nat)
    requires m <= n <= |w|
    ensures AbsTotal(w, m) <= AbsTotal(w, n) && (m < n ==> Abs(w[m]) <= AbsTotal(w, n))
  {
    if m < n { AbsTotalGrows(w, m, n - 1); }
  }

  // ---------- a block of one value ----------

  lemma {:induction false} DownOneValue(t: Taps, block: seq<int>, i: nat, n: nat, v: int)
    requires |block| == 64 && (forall k :: 0 <= k < 64 ==> block[k] == v)
    requires n <= |t.weights| && t.start + |t.weights| <= 8 && i < 8
    ensures Down(t, block, i, n) == Total(t.weights, n) * v
  {
    if n > 0 {
      DownOneValue(t, block, i, n - 1, v);
      assert (Total(t.weights, n - 1) + t.weights[n - 1]) * v == Total(t.weights, n - 1) * v + t.weights[n - 1] * v;
    }
  }

  lemma {:induction false} AcrossOneValue(t: Taps, sums: seq<int>, n: nat, v: int)
    requires |sums| == 8 && (forall i :: 0 <= i < 8 ==> sums[i] == v) && n <= |t.weights| && t.start + |t.weights| <= 8
    ensures Across(t, sums, n) == Total(t.weights, n) * v
  {
    if n > 0 {
      AcrossOneValue(t, sums, n - 1, v);
      assert (Total(t.weights, n - 1) + t.weights[n - 1]) * v == Total(t.weights, n - 1) * v + t.weights[n - 1] * v;
    }
  }

  lemma {:induction false} Pow2Adds(a: nat, b: nat)
    ensures Pow2(a + b) == Pow2(a) * Pow2(b)
  {
    if a > 0 {
      Pow2Adds(a - 1, b);
      Doubled(Pow2(a - 1), Pow2(b));
    }
  }

  lemma {:induction false} Doubled(a: nat, b: nat)
    ensures 2 * a * b == 2 * (a * b)
  {}

  lemma {:induction false} RoundsBack(v: nat, bits: nat)
    requires bits >= 1
    ensures (v * Pow2(bits) + Pow2(bits - 1)) / Pow2(bits) == v
  {
    DivisionIs(v * Pow2(bits) + Pow2(bits - 1), Pow2(bits), v, Pow2(bits - 1));
  }

  /** A block of one sample value comes out as that value looked up. */
  lemma {:induction false} OneValueScales(row: Taps, column: Taps, block: seq<int>, lut: seq<byte>, v: nat)
    requires Fits(row) && Fits(column) && |lut| == 4096 && v < 4096
    requires |block| == 64 && forall k :: 0 <= k < 64 ==> block[k] == v
    ensures ScaledPixel(row, column, block, lut) == lut[v]
  {
    hide Pow2, Finished;
    var sums := RowSums(row, block);
    forall i | 0 <= i < 8 ensures sums[i] == Pow2(row.bits) * v { DownOneValue(row, block, i, |row.weights|, v); }
    AcrossOneValue(column, sums, |column.weights|, Pow2(row.bits) * v);
    Pow2Adds(row.bits, column.bits);
    assert Pow2(column.bits) * (Pow2(row.bits) * v) == v * Pow2(row.bits + column.bits) by {
      Reassociate(Pow2(column.bits), Pow2(row.bits), v);
    }
    FinishesBack(v, row.bits + column.bits, lut);
  }

  lemma {:induction false} Reassociate(a: int, b: int, v: int)
    ensures a * (b * v) == v * (b * a)
  {}

  lemma {:induction false} FinishesBack(v: nat, bits: nat, lut: seq<byte>)
    requires v < 4096 && bits >= 1 && |lut| == 4096
    ensures Finished(v * Pow2(bits), bits, lut) == lut[v]
  {
    RoundsBack(v, bits);
    BelowLimit(v, Pow2(bits), Pow2(bits - 1));
  }

  lemma {:induction false} BelowLimit(v: nat, p: nat, half: nat)
    requires v < 4096 && half < p
    ensures 0 <= v * p + half < 4096 * p
  {
    assert (4095 - v) * p >= 0;
  }

  // ---------- transposing ----------

  function Transposed(block: seq<int>): (t: seq<int>)
    requires |block| == 64
    ensures |t| == 64 && forall k :: 0 <= k < 64 ==> t[k] == block[k % 8 * 8 + k / 8]
  {
    seq(64, k requires 0 <= k < 64 => block[k % 8 * 8 + k / 8])
  }

  /** The double sum taken row of samples by row of samples: the first m weights down, the first n across. */
  function ByRows(row: Taps, column: Taps, block: seq<int>, m: nat, n: nat): int
    requires |block| == 64 && row.start + |row.weights| <= 8 && column.start + |column.weights| <= 8
    requires m <= |row.weights| && n <= |column.weights|
  {
    if m == 0 then 0
    else
      ByRows(row, column, block, m - 1, n)
      + row.weights[m - 1] * Down(column, Transposed(block), row.start + m - 1, n)
  }

  /** One more column for every row. */
  lemma {:induction false} OneMoreColumn(row: Taps, column: Taps, block: seq<int>, m: nat, n: nat)
    requires |block| == 64 && row.start + |row.weights| <= 8 && column.start + |column.weights| <= 8
    requires m <= |row.weights| && n < |column.weights|
    ensures ByRows(row, column, block, m, n + 1) ==
            ByRows(row, column, block, m, n) + column.weights[n] * Down(row, block, column.start + n, m)
  {
    hide *;
    if m == 0 {
      NoRows(row, column, block, n);
    } else {
      OneMoreColumn(row, column, block, m - 1, n);
      NextRow(row, column, block, m - 1, n);
      NextRow(row, column, block, m - 1, n + 1);
      NextDown(column, Transposed(block), row.start + m - 1, n);
      NextDown(row, block, column.start + n, m - 1);
      var x := block[(row.start + m - 1) * 8 + column.start + n];
      Mirrored(block, row.start + m - 1, column.start + n);
      Exchange(row.weights[m - 1], column.weights[n], x, Down(column, Transposed(block), row.start + m - 1, n),
               Down(row, block, column.start + n, m - 1));
    }
  }

  lemma {:induction false} NoRows(row: Taps, column: Taps, block: seq<int>, n: nat)
    requires |block| == 64 && row.start + |row.weights| <= 8 && column.start + |column.weights| <= 8
      && n < |column.weights|
    ensures ByRows(row, column, block, 0, n) == ByRows(row, column, block, 0, n + 1) == 0
    ensures Down(row, block, column.start + n, 0) == 0
  {}

  lemma {:induction false} NextRow(row: Taps, column: Taps, block: seq<int>, m: nat, n: nat)
    requires |block| == 64 && row.start + |row.weights| <= 8 && column.start + |column.weights| <= 8
    requires m < |row.weights| && n <= |column.weights|
    ensures ByRows(row, column, block, m + 1, n) ==
            ByRows(row, column, block, m, n) + row.weights[m] * Down(column, Transposed(block), row.start + m, n)
  {}

  lemma {:induction false} NextDown(t: Taps, block: seq<int>, i: nat, n: nat)
    requires |block| == 64 && n < |t.weights| && t.start + |t.weights| <= 8 && i < 8
    ensures Down(t, block, i, n + 1) == Down(t, block, i, n) + t.weights[n] * block[(t.start + n) * 8 + i]
  {}

  lemma {:induction false} Mirrored(block: seq<int>, y: nat, x: nat)
    requires |block| == 64 && y < 8 && x < 8
    ensures Transposed(block)[x * 8 + y] == block[y * 8 + x]
  {}

  lemma {:induction false} Exchange(wr: int, wc: int, x: int, before: int, down: int)
    ensures wr * (before + wc * x) + wc * down == wr * before + wc * (down + wr * x)
  {}

  lemma {:induction false} AcrossIsByRows(row: Taps, column: Taps, block: seq<int>, n: nat)
    requires |block| == 64 && row.start + |row.weights| <= 8 && column.start + |column.weights| <= 8
      && n <= |column.weights|
    ensures Across(column, RowSums(row, block), n) == ByRows(row, column, block, |row.weights|, n)
  {
    hide *;
    if n == 0 {
      NoColumns(row, column, block, |row.weights|);
      AcrossNext(row, column, block, 0);
    } else {
      AcrossIsByRows(row, column, block, n - 1);
      AcrossNext(row, column, block, n - 1);
      OneMoreColumn(row, column, block, |row.weights|, n - 1);
    }
  }

  lemma {:induction false} AcrossNext(row: Taps, column: Taps, block: seq<int>, n: nat)
    requires |block| == 64 && row.start + |row.weights| <= 8 && column.start + |column.weights| <= 8
      && n <= |column.weights|
    ensures Across(column, RowSums(row, block), 0) == 0
    ensures n < |column.weights| ==>
      Across(column, RowSums(row, block), n + 1) ==
        Across(column, RowSums(row, block), n) + column.weights[n] * Down(row, block, column.start + n, |row.weights|)
  {}

  lemma {:induction false} NoColumns(row: Taps, column: Taps, block: seq<int>, m: nat)
    requires |block| == 64 && row.start + |row.weights| <= 8 && column.start + |column.weights| <= 8
      && m <= |row.weights|
    ensures ByRows(row, column, block, m, 0) == 0
  {
    if m > 0 { NoColumns(row, column, block, m - 1); }
  }

  lemma {:induction false} ByRowsIsAcross(row: Taps, column: Taps, block: seq<int>, m: nat)
    requires |block| == 64 && row.start + |row.weights| <= 8 && column.start + |column.weights| <= 8
      && m <= |row.weights|
    ensures ByRows(row, column, block, m, |column.weights|) == Across(row, RowSums(column, Transposed(block)), m)
  {
    if m > 0 { ByRowsIsAcross(row, column, block, m - 1); }
  }

  /** Scaling the transposed block gives the transposed pixels. */
  lemma {:induction false} TransposedScales(row: Taps, column: Taps, block: seq<int>, lut: seq<byte>)
    requires |block| == 64 && Fits(row) && Fits(column) && |lut| == 4096
    ensures ScaledPixel(column, row, Transposed(block), lut) == ScaledPixel(row, column, block, lut)
  {
    AcrossIsByRows(row, column, block, |column.weights|);
    ByRowsIsAcross(row, column, block, |row.weights|);
  }

  // ---------- samples used as they are ----------

  /** Without a colour table what is looked up is the low eight bits. */
  function LowByte(): (lut: seq<byte>)
    ensures |lut| == 4096 && forall i :: 0 <= i < 4096 ==> lut[i] == i % 256
  {
    seq(4096, i requires 0 <= i < 4096 => i % 256)
  }

  /** The double sum divided by its weights' total, rounded to the nearest, halves up. */
  function Rounded(sum: int, bits: nat): int
    requires bits >= 1
  {
    (sum + Pow2(bits - 1)) / Pow2(bits)
  }

  /** How near: half a unit at most, halves up. */
  lemma {:induction false} RoundedNearest(sum: int, bits: nat)
    requires bits >= 1
    ensures var r := Rounded(sum, bits); -(Pow2(bits) as int) <= 2 * (sum - r * Pow2(bits)) < Pow2(bits)
  {
    var p, s := Pow2(bits), sum + Pow2(bits - 1);
    assert s == s / p * p + s % p && 0 <= s % p < p;
  }

  function Clamped(v: int): byte {
    if v < 0 then 0 else if v > 255 then 255 else v
  }

  lemma {:induction false} QuotientOrder(s: int, p: nat, k: int)
    requires p > 0
    ensures s >= k * p <==> s / p >= k
  {
    var q := s / p;
    assert q * p <= s < q * p + p;
    assert (k - q) * p == k * p - q * p;
    MultipleOrder(k - q, p);
  }

  lemma {:induction false} MultipleOrder(k: int, p: nat)
    requires p > 0
    ensures k <= 0 ==> k * p <= 0
    ensures k >= 1 ==> k * p >= p
  {}

  /** A pixel of the plain scalers is the rounded mean clamped to a byte exactly when the rounded mean is below 256, or
      divides by 256 leaving 255, or is 4096 and more: clamping happens there, not at 256. */
  lemma {:induction false} PlainPixelClamps(row: Taps, column: Taps, block: seq<int>)
    requires |block| == 64 && Fits(row) && Fits(column)
    ensures var mean := Rounded(DoubleSum(row, column, block), row.bits + column.bits);
            ScaledPixel(row, column, block, LowByte()) == Clamped(mean) <==>
            mean < 256 || mean % 256 == 255 || mean >= 4096
  {
    hide Pow2, DoubleSum, LowByte;
    var bits := row.bits + column.bits;
    var s, p := DoubleSum(row, column, block) + Pow2(bits - 1), Pow2(bits);
    QuotientOrder(s, p, 0);
    QuotientOrder(s, p, 4096);
    if 0 <= s < 4096 * p { LutIndex(s, p); }
  }

  predicate NonNegative(t: Taps) {
    forall k :: 0 <= k < |t.weights| ==> t.weights[k] >= 0
  }

  /** The tables for 1 to 4 have no negative weights, those from 5 on have some. */
  lemma {:induction false} NonNegativeTables(n: nat)
    requires 1 <= n <= 7
    ensures (forall k :: 0 <= k < n ==> NonNegative(Table(n)[k])) <==> n <= 4
  {
    if n == 5 {
      assert Table(n)[1].weights[0] < 0;
    } else if n == 6 {
      assert Table(n)[1].weights[0] < 0;
    } else if n == 7 {
      assert Table(n)[1].weights[0] < 0;
    }
  }

  lemma {:induction false} ProductOrder(w: int, x: int, lo: int, hi: int)
    requires w >= 0 && lo <= x <= hi
    ensures w * lo <= w * x <= w * hi
  {
    assert w * (x - lo) >= 0 && w * (hi - x) >= 0;
  }

  lemma {:induction false} SumOrder(total: int, w: int, v: int)
    ensures (total + w) * v == total * v + w * v
  {}

  lemma {:induction false} DownWithin(t: Taps, block: seq<int>, i: nat, n: nat, lo: int, hi: int)
    requires |block| == 64 && n <= |t.weights| && t.start + |t.weights| <= 8 && i < 8 && NonNegative(t)
    requires forall k :: 0 <= k < 64 ==> lo <= block[k] <= hi
    ensures Total(t.weights, n) * lo <= Down(t, block, i, n) <= Total(t.weights, n) * hi
  {
    if n > 0 {
      DownWithin(t, block, i, n - 1, lo, hi);
      ProductOrder(t.weights[n - 1], block[(t.start + n - 1) * 8 + i], lo, hi);
      SumOrder(Total(t.weights, n - 1), t.weights[n - 1], lo);
      SumOrder(Total(t.weights, n - 1), t.weights[n - 1], hi);
    }
  }

  lemma {:induction false} AcrossWithin(t: Taps, sums: seq<int>, n: nat, lo: int, hi: int)
    requires |sums| == 8 && n <= |t.weights| && t.start + |t.weights| <= 8 && NonNegative(t)
    requires forall i :: 0 <= i < 8 ==> lo <= sums[i] <= hi
    ensures Total(t.weights, n) * lo <= Across(t, sums, n) <= Total(t.weights, n) * hi
  {
    if n > 0 {
      AcrossWithin(t, sums, n - 1, lo, hi);
      ProductOrder(t.weights[n - 1], sums[t.start + n - 1], lo, hi);
      SumOrder(Total(t.weights, n - 1), t.weights[n - 1], lo);
      SumOrder(Total(t.weights, n - 1), t.weights[n - 1], hi);
    }
  }

  lemma {:induction false} MeanWithin(row: Taps, column: Taps, block: seq<int>, lo: int, hi: int)
    requires |block| == 64 && Fits(row) && Fits(column) && NonNegative(row) && NonNegative(column)
    requires forall k :: 0 <= k < 64 ==> lo <= block[k] <= hi
    ensures lo <= Rounded(DoubleSum(row, column, block), row.bits + column.bits) <= hi
  {
    hide Pow2;
    var sums, a, b := RowSums(row, block), Pow2(row.bits), Pow2(column.bits);
    forall i | 0 <= i < 8 ensures a * lo <= sums[i] <= a * hi { DownWithin(row, block, i, |row.weights|, lo, hi); }
    AcrossWithin(column, sums, |column.weights|, a * lo, a * hi);
    Pow2Adds(row.bits, column.bits);
    Reassociate(b, a, lo);
    Reassociate(b, a, hi);
    RoundedWithin(Across(column, sums, |column.weights|), row.bits + column.bits, lo, hi);
  }

  lemma {:induction false} RoundedWithin(sum: int, bits: nat, lo: int, hi: int)
    requires bits >= 1 && lo * Pow2(bits) <= sum <= hi * Pow2(bits)
    ensures lo <= Rounded(sum, bits) <= hi
  {
    var p, half := Pow2(bits), Pow2(bits - 1);
    QuotientOrder(sum + half, p, lo);
    QuotientOrder(sum + half, p, hi + 1);
    SumOrder(hi, 1, p);
  }

  /** 1 by 1 to 4 by 4: every pixel lies between the block's least and greatest sample, and is the rounded mean. */
  lemma {:induction false} SmallScalersWithin(row: Taps, column: Taps, block: seq<int>, lo: int, hi: int)
    requires |block| == 64 && Fits(row) && Fits(column) && NonNegative(row) && NonNegative(column)
    requires 0 <= lo <= hi <= 255 && forall k :: 0 <= k < 64 ==> lo <= block[k] <= hi
    ensures ScaledPixel(row, column, block, LowByte()) as int ==
      Rounded(DoubleSum(row, column, block), row.bits + column.bits)
    ensures lo <= ScaledPixel(row, column, block, LowByte()) <= hi
  {
    hide ScaledPixel, DoubleSum, Rounded, LowByte;
    MeanWithin(row, column, block, lo, hi);
    PlainPixelClamps(row, column, block);
  }

  // ---------- ringing ----------

  /** The weights stay within an eighth more than their total, signs aside. */
  predicate Mild(t: Taps) {
    8 * AbsTotal(t.weights, |t.weights|) <= 9 * Pow2(t.bits)
  }

  lemma {:induction false} TablesMild(n: nat, k: nat)
    requires 1 <= n <= 7 && k < n
    ensures Mild(Table(n)[k])
  {
    hide Total, AbsTotal, Pow2;
    Powers();
    var t := Table(n)[k];
    if |t.weights| <= 4 { Totals(t.weights); } else { LongTotals(t.weights); }
  }

  lemma {:induction false} MildProduct(a: nat, b: nat, p: nat, q: nat)
    requires 8 * a <= 9 * p && 8 * b <= 9 * q
    ensures 64 * (b * (a * 255)) <= 20655 * (q * p)
  {
    assert (8 * a) * (8 * b) <= (9 * p) * (9 * q) by {
      Monotone(8 * a, 9 * p, 8 * b);
      assert Times(8 * b, 9 * p) <= Times(9 * q, 9 * p) by { Monotone(8 * b, 9 * q, 9 * p); }
      assert (9 * p) * (8 * b) == (8 * b) * (9 * p) && (9 * q) * (9 * p) == (9 * p) * (9 * q);
    }
    assert (8 * a) * (8 * b) == 64 * (b * a) && (9 * p) * (9 * q) == 81 * (q * p);
    assert b * (a * 255) == 255 * (b * a);
  }

  /** No mean of bytes is far outside a byte. */
  lemma {:induction false} ByteMeanSmall(row: Taps, column: Taps, block: seq<int>)
    requires Fits(row) && Fits(column) && Mild(row) && Mild(column) && IsBlock(block, 255)
    ensures Rounded(DoubleSum(row, column, block), row.bits + column.bits) < 511
  {
    hide Pow2, AbsTotal;
    var sums, a, b :=
      RowSums(row, block), AbsTotal(row.weights, |row.weights|), AbsTotal(column.weights, |column.weights|);
    forall i | 0 <= i < 8 ensures Abs(sums[i]) <= Times(a, 255) { DownBound(row, block, i, |row.weights|, 255); }
    AcrossBound(column, sums, |column.weights|, Times(a, 255));
    MildProduct(a, b, Pow2(row.bits), Pow2(column.bits));
    Pow2Adds(column.bits, row.bits);
    SmallQuotient(DoubleSum(row, column, block), row.bits + column.bits);
  }

  lemma {:induction false} SmallQuotient(sum: int, bits: nat)
    requires bits >= 1 && 64 * sum <= 20655 * Pow2(bits)
    ensures Rounded(sum, bits) < 511
  {
    QuotientOrder(sum + Pow2(bits - 1), Pow2(bits), 511);
  }

  /** With bytes for samples a pixel of the plain scalers is the clamped mean exactly when the mean is below 256. */
  lemma {:induction false} BytePixelClamps(n: nat, k: nat, l: nat, block: seq<int>)
    requires 1 <= n <= 7 && k < n && l < n && IsBlock(block, 255) && Fits(Table(n)[k]) && Fits(Table(n)[l])
    ensures var row, column := Table(n)[k], Table(n)[l];
            PixelClamps(row, column, block) <==> Rounded(DoubleSum(row, column, block), row.bits + column.bits) < 256
  {
    hide Table, ScaledPixel, DoubleSum, Rounded, LowByte, Fits, Mild;
    TablesMild(n, k);
    TablesMild(n, l);
    ByteMeanSmall(Table(n)[k], Table(n)[l], block);
    FitsShape(Table(n)[k]);
    FitsShape(Table(n)[l]);
    PlainPixelClamps(Table(n)[k], Table(n)[l], block);
  }

  lemma {:induction false} FitsShape(t: Taps)
    requires Fits(t)
    ensures t.bits >= 1 && t.start + |t.weights| <= 8
  {}

  /** White where two weights of the taps have the same sign, black where they have not. */
  function Ringing(t: Taps): (block: seq<int>)
    ensures |block| == 64 && IsBlock(block, 255)
  {
    seq(64, k => if IsWhite(t, k / 8, k % 8) then 255 else 0)
  }

  predicate IsWhite(t: Taps, y: int, x: int) {
    var i, j := x - t.start, y - t.start;
    0 <= i < |t.weights| && 0 <= j < |t.weights| && (t.weights[i] < 0) == (t.weights[j] < 0)
  }

  /** The total of the first n weights of one sign. */
  function SameSign(w: seq<int>, n: nat, negative: bool): int
    requires n <= |w|
  {
    if n == 0 then 0 else SameSign(w, n - 1, negative) + if (w[n - 1] < 0) == negative then w[n - 1] else 0
  }

  lemma {:induction false} RingingCell(t: Taps, i: nat, j: nat)
    requires t.start + |t.weights| <= 8 && i < |t.weights| && j < |t.weights|
    ensures Ringing(t)[(t.start + j) * 8 + (t.start + i)] == if (t.weights[i] < 0) == (t.weights[j] < 0) then 255 else 0
  {
    var y, x := t.start + j, t.start + i;
    assert (y * 8 + x) / 8 == y && (y * 8 + x) % 8 == x;
  }

  lemma {:induction false} RingingDown(t: Taps, i: nat, n: nat)
    requires t.start + |t.weights| <= 8 && i < |t.weights| && n <= |t.weights|
    ensures Down(t, Ringing(t), t.start + i, n) == 255 * SameSign(t.weights, n, t.weights[i] < 0)
  {
    hide Ringing;
    if n > 0 {
      RingingDown(t, i, n - 1);
      RingingCell(t, i, n - 1);
    }
  }

  lemma {:induction false} RingingAcross(t: Taps, n: nat)
    requires t.start + |t.weights| <= 8 && n <= |t.weights|
    ensures var plus, minus := SameSign(t.weights, |t.weights|, false), SameSign(t.weights, |t.weights|, true);
            Across(t, RowSums(t, Ringing(t)), n) ==
            255 * (SameSign(t.weights, n, false) * plus + SameSign(t.weights, n, true) * minus)
  {
    hide Down, SameSign, Ringing;
    NoSign(t.weights);
    if n > 0 {
      RingingAcross(t, n - 1);
      RingingDown(t, n - 1, |t.weights|);
      NextSign(t.weights, n - 1);
      NextShare(t.weights[n - 1], SameSign(t.weights, n - 1, false), SameSign(t.weights, n - 1, true),
                SameSign(t.weights, |t.weights|, false), SameSign(t.weights, |t.weights|, true));
    }
  }

  lemma {:induction false} NoSign(w: seq<int>)
    ensures SameSign(w, 0, true) == 0 == SameSign(w, 0, false)
  {}

  lemma {:induction false} NextSign(w: seq<int>, n: nat)
    requires n < |w|
    ensures SameSign(w, n + 1, true) == SameSign(w, n, true) + if w[n] < 0 then w[n] else 0
    ensures SameSign(w, n + 1, false) == SameSign(w, n, false) + if w[n] < 0 then 0 else w[n]
  {}

  lemma {:induction false} NextShare(w: int, a: int, b: int, plus: int, minus: int)
    ensures 255 * (a * plus + b * minus) + w * (255 * plus) == 255 * ((a + w) * plus + b * minus)
    ensures 255 * (a * plus + b * minus) + w * (255 * minus) == 255 * (a * plus + (b + w) * minus)
  {}

  /** The second taps of the scalers from 5 on have 2 below zero against 130, or 66, above. */
  lemma {:induction false} SecondTaps(n: nat)
    requires 5 <= n <= 7
    ensures var t, w := Table(n)[1], Table(n)[1].weights;
            && Fits(t) && SameSign(w, |w|, true) == -2
            && SameSign(w, |w|, false) == (if n == 6 then 66 else 130) && t.bits == if n == 6 then 6 else 7
  {
    LargeTableFits(n, 1);
    hide Fits;
    SignsOf(Table(n)[1].weights);
  }

  lemma {:induction false} SignsOf(w: seq<int>)
    requires 3 <= |w| <= 4
    ensures forall negative ::
      SameSign(w, |w|, negative) ==
        (if (w[0] < 0) == negative then w[0] else 0) + (if (w[1] < 0) == negative then w[1] else 0)
        + (if (w[2] < 0) == negative then w[2] else 0) + (if |w| == 4 && (w[3] < 0) == negative then w[3] else 0)
  {
    forall negative
      ensures SameSign(w, |w|, negative) ==
        (if (w[0] < 0) == negative then w[0] else 0) + (if (w[1] < 0) == negative then w[1] else 0)
        + (if (w[2] < 0) == negative then w[2] else 0) + (if |w| == 4 && (w[3] < 0) == negative then w[3] else 0)
    {
      assert SameSign(w, 1, negative) == if (w[0] < 0) == negative then w[0] else 0;
      assert SameSign(w, 3, negative) == SameSign(w, 2, negative) + if (w[2] < 0) == negative then w[2] else 0;
    }
  }

  /** From 5 by 5 on a pixel that should be white can come out nearly black: the rounded mean is 263 or 271, and only
      its low byte is left. */
  lemma {:induction false} RingingWraps(n: nat)
    requires 5 <= n <= 7
    ensures var t := Table(n)[1];
            && Fits(t)
            && Rounded(DoubleSum(t, t, Ringing(t)), t.bits + t.bits) == (if n == 6 then 271 else 263)
            && ScaledPixel(t, t, Ringing(t), LowByte()) == if n == 6 then 15 else 7
  {
    hide *;
    var t := Table(n)[1];
    SecondTaps(n);
    FitsShape(t);
    RingingAcross(t, |t.weights|);
    RingingSize(t);
    DoubleSumIs(t, t, Ringing(t));
    PixelIs(t, t, Ringing(t), LowByte());
    if n == 6 {
      RingingFinish(DoubleSum(t, t, Ringing(t)), 12);
    } else {
      RingingFinish(DoubleSum(t, t, Ringing(t)), 14);
    }
  }

  lemma {:induction false} RingingSize(t: Taps)
    ensures |Ringing(t)| == 64
  {}

  lemma {:induction false} DoubleSumIs(row: Taps, column: Taps, block: seq<int>)
    requires |block| == 64 && row.start + |row.weights| <= 8 && column.start + |column.weights| <= 8
    ensures DoubleSum(row, column, block) == Across(column, RowSums(row, block), |column.weights|)
  {}

  lemma {:induction false} Thousands()
    ensures Pow2(11) == 2048 && Pow2(12) == 4096 && Pow2(13) == 8192 && Pow2(14) == 16384
  {
    Powers();
    assert Pow2(10) == 1024;
    assert Pow2(12) == 4096;
  }

  lemma {:induction false} PixelIs(row: Taps, column: Taps, block: seq<int>, lut: seq<byte>)
    requires |block| == 64 && Fits(row) && Fits(column) && |lut| == 4096
    ensures row.bits + column.bits >= 1
    ensures ScaledPixel(row, column, block, lut) == Finished(DoubleSum(row, column, block), row.bits + column.bits, lut)
  {}

  lemma {:induction false} RingingFinish(sum: int, bits: nat)
    requires (bits == 14 && sum == 4310520) || (bits == 12 && sum == 1111800)
    ensures Rounded(sum, bits) == (if bits == 12 then 271 else 263)
    ensures Finished(sum, bits, LowByte()) == if bits == 12 then 15 else 7
  {
    hide Pow2;
    Thousands();
  }

  /** A pixel comes out as the clamped mean. */
  predicate PixelClamps(row: Taps, column: Taps, block: seq<int>)
    requires |block| == 64 && Fits(row) && Fits(column)
  {
    ScaledPixel(row, column, block, LowByte()) ==
      Clamped(Rounded(DoubleSum(row, column, block), row.bits + column.bits))
  }

  /** Every pixel of every block of bytes does. */
  ghost predicate AllPixelsClamp(n: nat)
    requires 1 <= n <= 7
  {
    TablesFit(n);
    forall k, l, block :: 0 <= k < n && 0 <= l < n && IsBlock(block, 255) ==>
      PixelClamps(Table(n)[k], Table(n)[l], block)
  }

  lemma {:induction false} MeanClamps(row: Taps, column: Taps, block: seq<int>)
    requires Fits(row) && Fits(column) && NonNegative(row) && NonNegative(column) && IsBlock(block, 255)
    ensures PixelClamps(row, column, block)
  {
    SmallScalersWithin(row, column, block, 0, 255);
  }

  lemma {:induction false} RingingPixel(n: nat)
    requires 5 <= n <= 7
    ensures Fits(Table(n)[1]) && !PixelClamps(Table(n)[1], Table(n)[1], Ringing(Table(n)[1]))
  {
    hide Table, Fits, ScaledPixel, DoubleSum, Rounded, LowByte, Ringing;
    RingingWraps(n);
  }

  /** The plain scalers that clamp always are exactly those up to 4 by 4. */
  lemma {:induction false} OnlySmallScalersClamp(n: nat)
    requires 1 <= n <= 7
    ensures AllPixelsClamp(n) <==> n <= 4
  {
    hide PixelClamps, Table, Fits, NonNegative, Ringing;
    TablesFit(n);
    if n <= 4 {
      NonNegativeTables(n);
      forall k, l, block | 0 <= k < n && 0 <= l < n && IsBlock(block, 255)
        ensures PixelClamps(Table(n)[k], Table(n)[l], block)
      {
        MeanClamps(Table(n)[k], Table(n)[l], block);
      }
    } else {
      RingingPixel(n);
    }
  }
}
