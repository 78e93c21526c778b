// Where the samples of a block go: what every scaler gives of one sample to
// each of its pixels, mirrored blocks, and blocks that ascend.

module BlockPlacement {
  import opened Numbers
  import opened Memory
  import opened BlockSpec

  /** What the parts of an output row (or column) add up to. */
  function Whole(n: nat): (whole: nat)
    ensures whole > 0
  {
    if n == 1 then 512 else if n <= 4 then 256 else 128
  }

  /** Sample row (or column) by sample row, how many parts of it each of the n output rows (or columns) takes. */
  function Parts(n: nat): (parts: seq<seq<int>>)
    requires 1 <= n <= 7
    ensures |parts| == 8 && forall x :: 0 <= x < 8 ==> |parts[x]| == n
  {
    if n == 1 then [[47], [60], [71], [78], [78], [71], [60], [47]]
    else if n == 2 then [[48, 0], [67, 0], [67, 4], [48, 22], [22, 48], [4, 67], [0, 67], [0, 48]]
    else if n == 3 then [[80, 0, 0], [103, 2, 0], [62, 39, 0], [11, 87, 0],
                         [0, 87, 11], [0, 39, 62], [0, 2, 103], [0, 0, 80]]
    else if n == 4 then [[117, 0, 0, 0], [117, 21, 0, 0], [22, 107, 0, 0], [0, 107, 21, 0],
                         [0, 21, 107, 0], [0, 0, 107, 22], [0, 0, 21, 117], [0, 0, 0, 117]]
    else if n == 5 then [[78, -2, 0, 0, 0], [51, 32, 0, 0, 0], [-1, 79, 2, 0, 0], [0, 19, 62, 0, 0],
                         [0, 0, 62, 19, 0], [0, 0, 2, 79, -1], [0, 0, 0, 32, 51], [0, 0, 0, -2, 78]]
    else if n == 6 then [[96, -2, 0, 0, 0, 0], [32, 66, 0, 0, 0, 0], [0, 66, 31, 0, 0, 0], [0, -2, 92, 5, 0, 0],
                         [0, 0, 5, 92, -2, 0], [0, 0, 0, 31, 66, 0], [0, 0, 0, 0, 66, 32], [0, 0, 0, 0, -2, 96]]
    else [[116, -2, 0, 0, 0, 0, 0], [12, 103, -3, 0, 0, 0, 0], [0, 27, 86, -3, 0, 0, 0], [0, 0, 45, 67, 0, 0, 0],
          [0, 0, 0, 67, 45, 0, 0], [0, 0, 0, -3, 86, 27, 0], [0, 0, 0, 0, -3, 103, 12], [0, 0, 0, 0, 0, -2, 116]]
  }

  /** The parts that output row (or column) k takes of the eight sample rows (or columns). */
  function Taken(n: nat, k: nat): (taken: seq<int>)
    requires 1 <= n <= 7 && k < n
    ensures |taken| == 8 && forall x :: 0 <= x < 8 ==> taken[x] == Parts(n)[x][k]
  {
    seq(8, x requires 0 <= x < 8 => Parts(n)[x][k])
  }

  function Weighed(parts: seq<int>, values: seq<int>, m: nat): int
    requires |parts| == |values| == 8 && m <= 8
  {
    if m == 0 then 0 else Weighed(parts, values, m - 1) + parts[m - 1] * values[m - 1]
  }

  /** The sample in row y and column x. */
  function Sample(block: seq<int>, y: nat, x: nat): int
    requires |block| == 64 && y < 8 && x < 8
  {
    block[y * 8 + x]
  }

  function Column(block: seq<int>, x: nat): (column: seq<int>)
    requires |block| == 64 && x < 8
    ensures |column| == 8 && forall y :: 0 <= y < 8 ==> column[y] == Sample(block, y, x)
  {
    seq(8, y requires 0 <= y < 8 => Sample(block, y, x))
  }

  /** The columns of a block weighed for output row k. */
  function Columns(n: nat, k: nat, block: seq<int>): (sums: seq<int>)
    requires 1 <= n <= 7 && k < n && |block| == 64
    ensures |sums| == 8 && forall x :: 0 <= x < 8 ==> sums[x] == Weighed(Taken(n, k), Column(block, x), 8)
  {
    seq(8, x requires 0 <= x < 8 => Weighed(Taken(n, k), Column(block, x), 8))
  }

  /** All 64 samples weighed for the pixel in output row k and column l, in parts of the square of Whole(n). */
  function Mean(n: nat, k: nat, l: nat, block: seq<int>): int
    requires 1 <= n <= 7 && k < n && l < n && |block| == 64
  {
    Weighed(Taken(n, l), Columns(n, k, block), 8)
  }

  /** A mean in parts of a whole rounded to the nearest integer, halves up, and looked up: black below the table and
      white above it. */
  function Looked(mean: int, whole: nat, lut: seq<byte>): byte
    requires whole > 0 && |lut| == 4096
  {
    var v := (2 * mean + whole) / (2 * whole);
    if v < 0 then 0 else if v < 4096 then lut[v] else 255
  }

  // ---------- the tables ----------

  /** These taps take those parts, scale parts to a weight. */
  predicate Takes(t: Taps, scale: nat, parts: seq<int>)
    requires |parts| == 8
  {
    forall x :: 0 <= x < 8 ==>
      parts[x] == if t.start <= x < t.start + |t.weights| then scale * t.weights[x - t.start] else 0
  }

  function Scale(n: nat, k: nat): (scale: nat)
    ensures scale > 0
  {
    if n == 5 then if k == 2 then 2 else 1
    else if n == 6 then if k == 0 || k == 5 then 16 else if k == 1 || k == 4 then 2 else 1
    else if n == 7 && (k == 0 || k == 6) then 4 else 1
  }

  /** One entry of the table, on its own for the size and the row. */
  predicate TakesAt(n: nat, k: nat, x: nat)
    requires 1 <= n <= 7 && k < n && x < 8
  {
    var t := Table(n)[k];
    Parts(n)[x][k] == if t.start <= x < t.start + |t.weights| then Scale(n, k) * t.weights[x - t.start] else 0
  }

  lemma {:induction false} SmallTakes(n: nat, k: nat, x: nat)
    requires 1 <= n <= 2 && k < n && x < 8
    ensures TakesAt(n, k, x)
  {}

  lemma {:induction false} ThreeTakes(k: nat, x: nat)
    requires k < 3 && x < 8
    ensures TakesAt(3, k, x)
  {}

  lemma {:induction false} FourTakes(k: nat, x: nat)
    requires k < 4 && x < 8
    ensures TakesAt(4, k, x)
  {}

  lemma {:induction false} FiveTakes(k: nat, x: nat)
    requires k < 5 && x < 8
    ensures TakesAt(5, k, x)
  {}

  lemma {:induction false} SixTakes(k: nat, x: nat)
    requires k < 6 && x < 8
    ensures TakesAt(6, k, x)
  {}

  lemma {:induction false} SevenTakes(k: nat, x: nat)
    requires k < 7 && x < 8
    ensures TakesAt(7, k, x)
  {}

  lemma {:induction false} WholeIs(n: nat, k: nat)
    requires 1 <= n <= 7 && k < n
    ensures Scale(n, k) * Pow2(Table(n)[k].bits) == Whole(n)
  {
    hide Pow2;
    Powers();
  }

  lemma {:induction false} TableTakes(n: nat, k: nat)
    requires 1 <= n <= 7 && k < n
    ensures Fits(Table(n)[k]) && Scale(n, k) * Pow2(Table(n)[k].bits) == Whole(n)
    ensures Takes(Table(n)[k], Scale(n, k), Taken(n, k))
  {
    hide Fits, Pow2, Table, Parts, Scale, Whole;
    TablesFit(n);
    WholeIs(n, k);
    var t := Table(n)[k];
    forall x | 0 <= x < 8
      ensures Taken(n, k)[x] ==
        if t.start <= x < t.start + |t.weights| then Scale(n, k) * t.weights[x - t.start] else 0
    {
      if n <= 2 { SmallTakes(n, k, x); }
      else if n == 3 { ThreeTakes(k, x); }
      else if n == 4 { FourTakes(k, x); }
      else if n == 5 { FiveTakes(k, x); }
      else if n == 6 { SixTakes(k, x); }
      else { SevenTakes(k, x); }
    }
  }

  // ---------- the whole sum ----------

  /** How many of the taps lie before sample m. */
  function Before(t: Taps, m: nat): (n: nat)
    ensures n <= |t.weights|
  {
    if m <= t.start then 0 else if m < t.start + |t.weights| then m - t.start else |t.weights|
  }

  lemma {:induction false} Padded(t: Taps, scale: nat, parts: seq<int>, values: seq<int>, m: nat)
    requires |parts| == |values| == 8 && m <= 8 && t.start + |t.weights| <= 8 && Takes(t, scale, parts)
    ensures Weighed(parts, values, m) == scale * Across(t, values, Before(t, m))
  {
    if m > 0 {
      Padded(t, scale, parts, values, m - 1);
      if t.start < m <= t.start + |t.weights| {
        var n := m - 1 - t.start;
        ScaledStep(scale, Across(t, values, n), t.weights[n], values[m - 1]);
      }
    }
  }

  lemma {:induction false} ScaledStep(scale: int, before: int, w: int, v: int)
    ensures scale * before + scale * w * v == scale * (before + w * v)
  {}

  lemma {:induction false} DownIsAcross(t: Taps, block: seq<int>, x: nat, n: nat)
    requires |block| == 64 && x < 8 && t.start + |t.weights| <= 8 && n <= |t.weights|
    ensures Down(t, block, x, n) == Across(t, Column(block, x), n)
  {
    if n > 0 { DownIsAcross(t, block, x, n - 1); }
  }

  lemma {:induction false} AcrossScales(t: Taps, scale: int, sums: seq<int>, scaled: seq<int>, n: nat)
    requires |sums| == |scaled| == 8 && t.start + |t.weights| <= 8 && n <= |t.weights|
    requires forall x :: 0 <= x < 8 ==> scaled[x] == scale * sums[x]
    ensures Across(t, scaled, n) == scale * Across(t, sums, n)
  {
    if n > 0 {
      AcrossScales(t, scale, sums, scaled, n - 1);
      var w, v := t.weights[n - 1], sums[t.start + n - 1];
      assert w * (scale * v) == scale * w * v;
      ScaledStep(scale, Across(t, sums, n - 1), w, v);
    }
  }

  lemma {:induction false} ColumnWeighed(n: nat, k: nat, block: seq<int>, x: nat)
    requires 1 <= n <= 7 && k < n && |block| == 64 && x < 8 && Fits(Table(n)[k])
    ensures Columns(n, k, block)[x] == Scale(n, k) * RowSums(Table(n)[k], block)[x]
  {
    hide Table, Parts, Scale, Pow2;
    var t := Table(n)[k];
    TableTakes(n, k);
    Padded(t, Scale(n, k), Taken(n, k), Column(block, x), 8);
    DownIsAcross(t, block, x, |t.weights|);
  }

  lemma {:induction false} MeanIsDoubleSum(n: nat, k: nat, l: nat, block: seq<int>)
    requires 1 <= n <= 7 && k < n && l < n && |block| == 64 && Fits(Table(n)[k]) && Fits(Table(n)[l])
    ensures Mean(n, k, l, block) == Scale(n, k) * Scale(n, l) * DoubleSum(Table(n)[k], Table(n)[l], block)
  {
    hide Table, Parts, Scale, Pow2, Across, Weighed;
    var row, column, sums := Table(n)[k], Table(n)[l], Columns(n, k, block);
    TableTakes(n, l);
    forall x | 0 <= x < 8 ensures sums[x] == Scale(n, k) * RowSums(row, block)[x] { ColumnWeighed(n, k, block, x); }
    Padded(column, Scale(n, l), Taken(n, l), sums, 8);
    AcrossScales(column, Scale(n, k), RowSums(row, block), sums, |column.weights|);
    Outward(Scale(n, k), Scale(n, l), DoubleSum(row, column, block));
  }

  lemma {:induction false} Outward(a: int, b: int, sum: int)
    ensures b * (a * sum) == a * b * sum
  {}

  /** The pixels of every scaler come from all 64 samples weighed as Parts says, and from nothing else. */
  lemma {:induction false} PixelIsMean(n: nat, k: nat, l: nat, block: seq<int>, lut: seq<byte>)
    requires 1 <= n <= 7 && k < n && l < n && |block| == 64 && |lut| == 4096
    ensures Fits(Table(n)[k]) && Fits(Table(n)[l])
    ensures ScaledPixel(Table(n)[k], Table(n)[l], block, lut) ==
      Looked(Mean(n, k, l, block), Whole(n) * Whole(n), lut)
  {
    hide Table, Fits, Scale, Pow2, DoubleSum, Mean, Looked, Whole;
    var row, column := Table(n)[k], Table(n)[l];
    TableTakes(n, k);
    TableTakes(n, l);
    MeanIsDoubleSum(n, k, l, block);
    Wholes(Scale(n, k), Scale(n, l), row.bits, column.bits);
    PixelIs(row, column, block, lut);
    FitsShape(row);
    FitsShape(column);
    FinishedIsLooked(DoubleSum(row, column, block), row.bits + column.bits, Scale(n, k) * Scale(n, l), lut);
  }

  lemma {:induction false} Wholes(a: nat, b: nat, p: nat, q: nat)
    requires a > 0 && b > 0
    ensures (a * Pow2(p)) * (b * Pow2(q)) == a * b * Pow2(p + q) && a * b > 0
  {
    Pow2Adds(p, q);
    assert (a * Pow2(p)) * (b * Pow2(q)) == a * b * (Pow2(p) * Pow2(q));
  }

  /** Taking all numbers times the same changes no rounded mean. */
  lemma {:induction false} FinishedIsLooked(sum: int, bits: nat, scale: nat, lut: seq<byte>)
    requires |lut| == 4096 && bits >= 1 && scale > 0 && scale * Pow2(bits) > 0
    ensures Finished(sum, bits, lut) == Looked(scale * sum, scale * Pow2(bits), lut)
  {
    var s, p, half := sum + Pow2(bits - 1), Pow2(bits), Pow2(bits - 1);
    QuotientOrder(s, p, 0);
    QuotientOrder(s, p, 4096);
    assert p == 2 * half;
    assert 2 * (scale * sum) + scale * p == 2 * scale * s by { Halves(scale, sum, half); }
    assert 2 * (scale * p) == 2 * scale * p;
    Cancelled(2 * scale, s, p);
  }

  lemma {:induction false} Halves(scale: int, sum: int, half: int)
    ensures 2 * (scale * sum) + scale * (2 * half) == 2 * scale * (sum + half)
  {}

  lemma {:induction false} Cancelled(c: nat, s: int, p: nat)
    requires c > 0 && p > 0 && c * p > 0
    ensures c * s / (c * p) == s / p
  {
    var q, r := s / p, s % p;
    assert s == q * p + r;
    assert c * s == q * (c * p) + c * r by { Expanded(c, q, p, r); }
    assert 0 <= c * r < c * p by { Smaller(c, r, p); }
    QuotientIs(c * s, c * p, q, c * r);
  }

  lemma {:induction false} Expanded(c: int, q: int, p: int, r: int)
    ensures c * (q * p + r) == q * (c * p) + c * r
  {}

  lemma {:induction false} Smaller(c: nat, r: nat, p: nat)
    requires c > 0 && r < p
    ensures 0 <= c * r < c * p
  {}

  lemma {:induction false} QuotientIs(x: int, d: nat, q: int, r: nat)
    requires d > 0 && x == q * d + r && r < d
    ensures x / d == q
  {
    QuotientOrder(x, d, q);
    QuotientOrder(x, d, q + 1);
    assert (q + 1) * d == q * d + d;
  }

  // ---------- a single sample ----------

  /** Black but for the sample in row y and column x. */
  predicate Single(block: seq<int>, y: nat, x: nat, v: int) {
    |block| == 64 && forall k :: 0 <= k < 64 ==> block[k] == if k == y * 8 + x then v else 0
  }

  lemma {:induction false} WeighedSingle(parts: seq<int>, values: seq<int>, at: nat, v: int, m: nat)
    requires |parts| == |values| == 8 && m <= 8
    requires forall x :: 0 <= x < 8 ==> values[x] == if x == at then v else 0
    ensures Weighed(parts, values, m) == if at < m then parts[at] * v else 0
  {
    if m > 0 { WeighedSingle(parts, values, at, v, m - 1); }
  }

  /** What a single sample becomes: to every pixel it gives its row's parts times its column's. */
  lemma {:induction false} SingleSample(n: nat, k: nat, l: nat, block: seq<int>, y: nat, x: nat, v: int,
                                        lut: seq<byte>)
    requires 1 <= n <= 7 && k < n && l < n && y < 8 && x < 8 && Single(block, y, x, v) && |lut| == 4096
    ensures Fits(Table(n)[k]) && Fits(Table(n)[l])
    ensures ScaledPixel(Table(n)[k], Table(n)[l], block, lut) ==
      Looked(Parts(n)[x][l] * (Parts(n)[y][k] * v), Whole(n) * Whole(n), lut)
  {
    hide Table, Fits, Parts, Looked, Whole, ScaledPixel, Weighed;
    PixelIsMean(n, k, l, block, lut);
    var sums, down := Columns(n, k, block), Parts(n)[y][k] * v;
    forall i | 0 <= i < 8 ensures sums[i] == if i == x then down else 0 {
      SingleColumn(block, y, x, v, i);
      WeighedSingle(Taken(n, k), Column(block, i), y, if i == x then v else 0, 8);
    }
    WeighedSingle(Taken(n, l), sums, x, down, 8);
  }

  lemma {:induction false} SingleColumn(block: seq<int>, y: nat, x: nat, v: int, i: nat)
    requires y < 8 && x < 8 && i < 8 && Single(block, y, x, v)
    ensures forall j :: 0 <= j < 8 ==> Column(block, i)[j] == if j == y then if i == x then v else 0 else 0
  {}

  // ---------- mirrored blocks ----------

  /** Left and right exchanged. */
  function LeftRight(block: seq<int>): (mirrored: seq<int>)
    requires |block| == 64
    ensures |mirrored| == 64
    ensures forall y, x :: 0 <= y < 8 && 0 <= x < 8 ==> Sample(mirrored, y, x) == Sample(block, y, 7 - x)
  {
    seq(64, k requires 0 <= k < 64 => block[k / 8 * 8 + 7 - k % 8])
  }

  /** Top and bottom exchanged. */
  function TopBottom(block: seq<int>): (mirrored: seq<int>)
    requires |block| == 64
    ensures |mirrored| == 64
    ensures forall y, x :: 0 <= y < 8 && 0 <= x < 8 ==> Sample(mirrored, y, x) == Sample(block, 7 - y, x)
  {
    seq(64, k requires 0 <= k < 64 => block[(7 - k / 8) * 8 + k % 8])
  }

  lemma {:induction false} PartsMirrored(n: nat, k: nat, x: nat)
    requires 1 <= n <= 7 && k < n && x < 8
    ensures Parts(n)[7 - x][n - 1 - k] == Parts(n)[x][k]
  {
    if n <= 4 {
      SmallPartsMirrored(n, k, x);
    } else if n == 5 {
      FivePartsMirrored(k, x);
    } else if n == 6 {
      SixPartsMirrored(k, x);
    } else {
      SevenPartsMirrored(k, x);
    }
  }

  lemma {:induction false} SmallPartsMirrored(n: nat, k: nat, x: nat)
    requires 1 <= n <= 4 && k < n && x < 8
    ensures Parts(n)[7 - x][n - 1 - k] == Parts(n)[x][k]
  {}

  lemma {:induction false} FivePartsMirrored(k: nat, x: nat)
    requires k < 5 && x < 8
    ensures Parts(5)[7 - x][4 - k] == Parts(5)[x][k]
  {}

  lemma {:induction false} SixPartsMirrored(k: nat, x: nat)
    requires k < 6 && x < 8
    ensures Parts(6)[7 - x][5 - k] == Parts(6)[x][k]
  {}

  lemma {:induction false} SevenPartsMirrored(k: nat, x: nat)
    requires k < 7 && x < 8
    ensures Parts(7)[7 - x][6 - k] == Parts(7)[x][k]
  {}

  lemma {:induction false} WeighedBackward(a: seq<int>, b: seq<int>, v: seq<int>, w: seq<int>, m: nat)
    requires |a| == |b| == |v| == |w| == 8 && m <= 8
    requires forall x :: 0 <= x < 8 ==> b[x] == a[7 - x] && w[x] == v[7 - x]
    ensures Weighed(b, w, m) + Weighed(a, v, 8 - m) == Weighed(a, v, 8)
  {
    if m > 0 {
      WeighedBackward(a, b, v, w, m - 1);
      assert b[m - 1] * w[m - 1] == a[8 - m] * v[8 - m];
    }
  }

  lemma {:induction false} WeighedMirrored(n: nat, k: nat, v: seq<int>, w: seq<int>)
    requires 1 <= n <= 7 && k < n && |v| == |w| == 8 && forall x :: 0 <= x < 8 ==> w[x] == v[7 - x]
    ensures Weighed(Taken(n, k), w, 8) == Weighed(Taken(n, n - 1 - k), v, 8)
  {
    hide Parts, Weighed;
    var a, b := Taken(n, n - 1 - k), Taken(n, k);
    forall x | 0 <= x < 8 ensures b[x] == a[7 - x] { PartsMirrored(n, k, x); }
    WeighedBackward(a, b, v, w, 8);
    NothingWeighed(a, v);
  }

  lemma {:induction false} NothingWeighed(parts: seq<int>, values: seq<int>)
    requires |parts| == |values| == 8
    ensures Weighed(parts, values, 0) == 0
  {}

  /** Mirroring a block left to right mirrors its pixels, and so does mirroring it top to bottom. */
  lemma {:induction false} MirroredScales(n: nat, k: nat, l: nat, block: seq<int>, lut: seq<byte>)
    requires 1 <= n <= 7 && k < n && l < n && |block| == 64 && |lut| == 4096
    ensures AllFit(Table(n))
    ensures ScaledPixel(Table(n)[k], Table(n)[l], LeftRight(block), lut) ==
            ScaledPixel(Table(n)[k], Table(n)[n - 1 - l], block, lut)
    ensures ScaledPixel(Table(n)[k], Table(n)[l], TopBottom(block), lut) ==
            ScaledPixel(Table(n)[n - 1 - k], Table(n)[l], block, lut)
  {
    hide Table, Fits, Looked, Whole, ScaledPixel, Weighed, Parts;
    TablesFit(n);
    PixelIsMean(n, k, l, LeftRight(block), lut);
    PixelIsMean(n, k, n - 1 - l, block, lut);
    PixelIsMean(n, k, l, TopBottom(block), lut);
    PixelIsMean(n, n - 1 - k, l, block, lut);
    forall x | 0 <= x < 8 ensures Columns(n, k, LeftRight(block))[x] == Columns(n, k, block)[7 - x] {
      assert Column(LeftRight(block), x) == Column(block, 7 - x);
    }
    WeighedMirrored(n, l, Columns(n, k, block), Columns(n, k, LeftRight(block)));
    forall x | 0 <= x < 8 ensures Columns(n, k, TopBottom(block))[x] == Columns(n, n - 1 - k, block)[x] {
      WeighedMirrored(n, k, Column(block, x), Column(TopBottom(block), x));
    }
    assert Columns(n, k, TopBottom(block)) == Columns(n, n - 1 - k, block);
  }

  // ---------- blocks that ascend ----------

  /** No sample is less than one to its left. */
  predicate AscendsAcross(block: seq<int>) {
    |block| == 64 && forall y, i, j :: 0 <= y < 8 && 0 <= i <= j < 8 ==> Sample(block, y, i) <= Sample(block, y, j)
  }

  predicate Ascends(values: seq<int>) {
    forall i, j :: 0 <= i <= j < |values| ==> values[i] <= values[j]
  }

  function Sum(parts: seq<int>, m: nat): int
    requires m <= |parts|
  {
    if m == 0 then 0 else Sum(parts, m - 1) + parts[m - 1]
  }

  /** Of ascending values, what takes its parts further on weighs more. */
  lemma {:induction false} FurtherWeighsMore(a: seq<int>, b: seq<int>, v: seq<int>, m: nat)
    requires |a| == |b| == |v| == 8 && 1 <= m <= 8 && Ascends(v)
    requires forall i :: 0 <= i <= m ==> Sum(b, i) <= Sum(a, i)
    ensures Weighed(b, v, m) - Weighed(a, v, m) >= (Sum(b, m) - Sum(a, m)) * v[m - 1]
  {
    var d := Sum(b, m - 1) - Sum(a, m - 1);
    if m > 1 {
      FurtherWeighsMore(a, b, v, m - 1);
      LessTimes(d, v[m - 2], v[m - 1]);
    }
    Difference(d, b[m - 1], a[m - 1], v[m - 1]);
  }

  lemma {:induction false} LessTimes(d: int, v: int, w: int)
    requires d <= 0 && v <= w
    ensures d * v >= d * w
  {
    assert d * (w - v) <= 0;
  }

  lemma {:induction false} Difference(d: int, b: int, a: int, v: int)
    ensures d * v + b * v - a * v == (d + b - a) * v
  {}

  /** Up to 4 by 4 each output column takes its parts further on than the one before, and none less than nothing. */
  lemma {:induction false} PartsMoveOn(n: nat, l: nat)
    requires 1 <= n <= 4 && l + 1 < n
    ensures forall m :: 0 <= m <= 8 ==> Sum(Taken(n, l + 1), m) <= Sum(Taken(n, l), m)
    ensures Sum(Taken(n, l + 1), 8) == Sum(Taken(n, l), 8)
  {
    hide Sum;
    SumsAre(Taken(n, l));
    SumsAre(Taken(n, l + 1));
  }

  lemma {:induction false} SumsAre(a: seq<int>)
    requires |a| == 8
    ensures Sum(a, 0) == 0 && Sum(a, 1) == a[0] && Sum(a, 2) == a[0] + a[1] && Sum(a, 3) == a[0] + a[1] + a[2]
    ensures Sum(a, 4) == a[0] + a[1] + a[2] + a[3] && Sum(a, 5) == a[0] + a[1] + a[2] + a[3] + a[4]
    ensures Sum(a, 6) == a[0] + a[1] + a[2] + a[3] + a[4] + a[5]
    ensures Sum(a, 7) == a[0] + a[1] + a[2] + a[3] + a[4] + a[5] + a[6]
    ensures Sum(a, 8) == a[0] + a[1] + a[2] + a[3] + a[4] + a[5] + a[6] + a[7]
  {
    assert Sum(a, 2) == Sum(a, 1) + a[1];
    assert Sum(a, 4) == Sum(a, 3) + a[3];
    assert Sum(a, 6) == Sum(a, 5) + a[5];
  }

  lemma {:induction false} WeighedOrder(parts: seq<int>, v: seq<int>, w: seq<int>, m: nat)
    requires |parts| == |v| == |w| == 8 && m <= 8
    requires forall x :: 0 <= x < 8 ==> parts[x] >= 0 && v[x] <= w[x]
    ensures Weighed(parts, v, m) <= Weighed(parts, w, m)
  {
    if m > 0 {
      WeighedOrder(parts, v, w, m - 1);
      ProductOrder(parts[m - 1], v[m - 1], v[m - 1], w[m - 1]);
    }
  }

  lemma {:induction false} PartsNotNegative(n: nat, k: nat)
    requires 1 <= n <= 4 && k < n
    ensures forall x :: 0 <= x < 8 ==> Taken(n, k)[x] >= 0
  {}

  lemma {:induction false} ColumnsAscend(n: nat, k: nat, block: seq<int>)
    requires 1 <= n <= 4 && k < n && AscendsAcross(block)
    ensures Ascends(Columns(n, k, block))
  {
    hide Parts, Weighed;
    PartsNotNegative(n, k);
    forall i, j | 0 <= i <= j < 8 ensures Columns(n, k, block)[i] <= Columns(n, k, block)[j] {
      WeighedOrder(Taken(n, k), Column(block, i), Column(block, j), 8);
    }
  }

  lemma {:induction false} MeansAscend(n: nat, k: nat, l: nat, block: seq<int>)
    requires 1 <= n <= 4 && k < n && l + 1 < n && AscendsAcross(block)
    ensures Mean(n, k, l, block) <= Mean(n, k, l + 1, block)
  {
    hide Parts, Weighed, Sum;
    ColumnsAscend(n, k, block);
    PartsMoveOn(n, l);
    FurtherWeighsMore(Taken(n, l), Taken(n, l + 1), Columns(n, k, block), 8);
  }

  lemma {:induction false} LookedAscends(a: int, b: int, whole: nat, lut: seq<byte>)
    requires a <= b && whole > 0 && |lut| == 4096 && Ascends(lut)
    ensures Looked(a, whole, lut) <= Looked(b, whole, lut)
  {
    QuotientOrder(2 * b + whole, 2 * whole, (2 * a + whole) / (2 * whole));
    QuotientOrder(2 * a + whole, 2 * whole, (2 * a + whole) / (2 * whole));
  }

  /** Up to 4 by 4 a block that ascends along its rows gives pixels that do, by any ascending table. */
  lemma {:induction false} AscendingScales(n: nat, k: nat, l: nat, block: seq<int>, lut: seq<byte>)
    requires 1 <= n <= 4 && k < n && l + 1 < n && AscendsAcross(block) && |lut| == 4096 && Ascends(lut)
    ensures AllFit(Table(n))
    ensures ScaledPixel(Table(n)[k], Table(n)[l], block, lut) <= ScaledPixel(Table(n)[k], Table(n)[l + 1], block, lut)
  {
    hide Table, Fits, Looked, ScaledPixel, Mean, Ascends;
    TablesFit(n);
    PixelIsMean(n, k, l, block, lut);
    PixelIsMean(n, k, l + 1, block, lut);
    MeansAscend(n, k, l, block);
    LookedAscends(Mean(n, k, l, block), Mean(n, k, l + 1, block), Whole(n) * Whole(n), lut);
  }

  /** What is above a byte taken for the largest byte. */
  function Saturated(): (lut: seq<byte>)
    ensures |lut| == 4096 && Ascends(lut) && forall i :: 0 <= i < 256 ==> lut[i] == i
  {
    seq(4096, i requires 0 <= i < 4096 => Min(i, 255))
  }

  lemma {:induction false} SmallSaturated(row: Taps, column: Taps, block: seq<int>)
    requires Fits(row) && Fits(column) && NonNegative(row) && NonNegative(column) && IsBlock(block, 255)
    ensures ScaledPixel(row, column, block, LowByte()) == ScaledPixel(row, column, block, Saturated())
  {
    hide Pow2, DoubleSum, LowByte, Fits, Saturated;
    FitsShape(row);
    FitsShape(column);
    MeanWithin(row, column, block, 0, 255);
  }

  /** Every block of bytes that ascends along its rows gives pixels of the plain scaler that do. */
  ghost predicate KeepsOrder(n: nat)
    requires 1 <= n <= 7
  {
    TablesFit(n);
    forall k, l, block :: 0 <= k < n && 0 <= l < n - 1 && IsBlock(block, 255) && AscendsAcross(block) ==>
      PlainPixel(n, k, l, block) <= PlainPixel(n, k, l + 1, block)
  }

  function PlainPixel(n: nat, k: nat, l: nat, block: seq<int>): byte
    requires 1 <= n <= 7 && k < n && l < n && |block| == 64
  {
    TablesFit(n);
    ScaledPixel(Table(n)[k], Table(n)[l], block, LowByte())
  }

  lemma {:induction false} PlainAscends(n: nat, k: nat, l: nat, block: seq<int>)
    requires 1 <= n <= 4 && k < n && l + 1 < n && IsBlock(block, 255) && AscendsAcross(block)
    ensures PlainPixel(n, k, l, block) <= PlainPixel(n, k, l + 1, block)
  {
    hide Table, Fits, ScaledPixel, AscendsAcross, IsBlock, NonNegative, LowByte, Saturated;
    TablesFit(n);
    NonNegativeTables(n);
    SmallSaturated(Table(n)[k], Table(n)[l], block);
    SmallSaturated(Table(n)[k], Table(n)[l + 1], block);
    AscendingScales(n, k, l, block, Saturated());
  }

  /** Black in the first column and light grey after it. */
  function Edge(): (block: seq<int>)
    ensures |block| == 64 && IsBlock(block, 255) && AscendsAcross(block)
    ensures forall y, x :: 0 <= y < 8 && 0 <= x < 8 ==> Sample(block, y, x) == if x == 0 then 0 else 200
  {
    seq(64, k => if k % 8 == 0 then 0 else 200)
  }

  lemma {:induction false} WeighedSame(parts: seq<int>, values: seq<int>, v: int, m: nat)
    requires |parts| == |values| == 8 && m <= 8 && forall x :: 0 <= x < m ==> values[x] == v
    ensures Weighed(parts, values, m) == Sum(parts, m) * v
  {
    if m > 0 {
      WeighedSame(parts, values, v, m - 1);
      SumOrder(Sum(parts, m - 1), parts[m - 1], v);
    }
  }

  lemma {:induction false} WeighedButFirst(parts: seq<int>, values: seq<int>, v: int, m: nat)
    requires |parts| == |values| == 8 && 1 <= m <= 8
    requires values[0] == 0 && forall x :: 1 <= x < 8 ==> values[x] == v
    ensures Weighed(parts, values, m) == (Sum(parts, m) - parts[0]) * v
  {
    if m > 1 {
      WeighedButFirst(parts, values, v, m - 1);
      SumOrder(Sum(parts, m - 1) - parts[0], parts[m - 1], v);
    } else {
      assert Sum(parts, 0) == 0 && Sum(parts, 1) == parts[0] && Weighed(parts, values, 0) == 0;
    }
  }

  lemma {:induction false} LargeSums(n: nat, k: nat)
    requires 5 <= n <= 7 && k < 3
    ensures Sum(Taken(n, k), 8) == 128
    ensures k == 1 ==> Taken(n, k)[0] == -2
    ensures k == 2 ==> Taken(n, k)[0] == 0
  {
    hide Sum;
    SumsAre(Taken(n, k));
  }

  /** From 5 by 5 on the pixel next to an edge overshoots: 203, and 200 to its right. */
  lemma {:induction false} EdgeOvershoots(n: nat)
    requires 5 <= n <= 7
    ensures PlainPixel(n, 0, 1, Edge()) == 203 && PlainPixel(n, 0, 2, Edge()) == 200
  {
    hide Table, Fits, Parts, Looked, ScaledPixel, Weighed, Sum, Edge, LowByte;
    PixelIsMean(n, 0, 1, Edge(), LowByte());
    PixelIsMean(n, 0, 2, Edge(), LowByte());
    LargeSums(n, 0);
    LargeSums(n, 1);
    LargeSums(n, 2);
    forall x | 0 <= x < 8 ensures Columns(n, 0, Edge())[x] == if x == 0 then 0 else 25600 {
      WeighedSame(Taken(n, 0), Column(Edge(), x), if x == 0 then 0 else 200, 8);
    }
    WeighedButFirst(Taken(n, 1), Columns(n, 0, Edge()), 25600, 8);
    WeighedButFirst(Taken(n, 2), Columns(n, 0, Edge()), 25600, 8);
    EdgeLooked();
  }

  lemma {:induction false} EdgeLooked()
    ensures Looked(130 * 25600, 128 * 128, LowByte()) == 203
    ensures Looked(128 * 25600, 128 * 128, LowByte()) == 200
  {
    hide LowByte;
    assert (2 * (130 * 25600) + 128 * 128) / (2 * (128 * 128)) == 203;
    assert (2 * (128 * 25600) + 128 * 128) / (2 * (128 * 128)) == 200;
  }

  /** The plain scalers that keep the order of samples are exactly those up to 4 by 4. */
  lemma {:induction false} OnlySmallScalersKeepOrder(n: nat)
    requires 1 <= n <= 7
    ensures KeepsOrder(n) <==> n <= 4
  {
    hide PlainPixel, Edge;
    if n <= 4 {
      forall k, l, block | 0 <= k < n && 0 <= l < n - 1 && IsBlock(block, 255) && AscendsAcross(block)
        ensures PlainPixel(n, k, l, block) <= PlainPixel(n, k, l + 1, block)
      {
        PlainAscends(n, k, l, block);
      }
    } else {
      EdgeOvershoots(n);
      assert PlainPixel(n, 0, 1, Edge()) > PlainPixel(n, 0, 1 + 1, Edge());
    }
  }
}
