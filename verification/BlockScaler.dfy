// The block scalers: one routine over a table of taps, working in 32-bit
// integers through a scratch array.

module BlockScaler {
  import opened Numbers
  import opened Memory
  import opened BlockSpec

  type int32 = x: int | -0x8000_0000 <= x < 0x8000_0000

  /** The most that a partial sum down a column can come to: 512 weights' worth of the largest sample. */
  const DOWN_LIMIT: nat := 2096640

  lemma {:induction false} DownFits(t: Taps, block: seq<int>, i: nat, n: nat)
    requires IsBlock(block, 4095) && Fits(t) && n <= |t.weights| && i < 8
    ensures Abs(Down(t, block, i, n)) <= DOWN_LIMIT
    ensures n < |t.weights| ==> Abs(t.weights[n] * block[(t.start + n) * 8 + i]) <= DOWN_LIMIT
  {
    DownBound(t, block, i, n, 4095);
    AbsTotalGrows(t.weights, n, |t.weights|);
    Monotone(AbsTotal(t.weights, n), 512, 4095);
    if n < |t.weights| {
      ProductBound(t.weights[n], block[(t.start + n) * 8 + i], 4095);
      Monotone(Abs(t.weights[n]), 512, 4095);
    }
    assert Times(512, 4095) == DOWN_LIMIT;
  }

  lemma {:induction false} AcrossFits(t: Taps, sums: seq<int>, n: nat)
    requires |sums| == 8 && Fits(t) && n <= |t.weights| && forall i :: 0 <= i < 8 ==> Abs(sums[i]) <= DOWN_LIMIT
    ensures Abs(Across(t, sums, n)) <= 1073479680
    ensures n < |t.weights| ==> Abs(t.weights[n] * sums[t.start + n]) <= 1073479680
  {
    AcrossBound(t, sums, n, DOWN_LIMIT);
    AbsTotalGrows(t.weights, n, |t.weights|);
    Monotone(AbsTotal(t.weights, n), 512, DOWN_LIMIT);
    if n < |t.weights| {
      ProductBound(t.weights[n], sums[t.start + n], DOWN_LIMIT);
      Monotone(Abs(t.weights[n]), 512, DOWN_LIMIT);
    }
    assert Times(512, DOWN_LIMIT) == 1073479680;
  }

  /** The first cells of scratch, eight to an input row, hold the weighted samples of an output row. */
  ghost predicate Products(temp: seq<int32>, t: Taps, block: seq<int>, cells: nat)
    requires |block| == 64 && cells <= |t.weights| * 8 && t.start + |t.weights| <= 8
  {
    cells <= |temp| && forall m :: 0 <= m < cells ==> temp[m] as int == t.weights[m / 8] * block[t.start * 8 + m]
  }

  /** Eight cells of scratch hold the column sums. */
  ghost predicate SumsIn(temp: seq<int32>, sumsAt: nat, sums: seq<int>, n: nat)
    requires n <= 8 == |sums|
  {
    sumsAt + n <= |temp| && forall m :: sumsAt <= m < sumsAt + n ==> temp[m] as int == sums[m - sumsAt]
  }

  /** Multiplies the samples of an output row with its weights. */
  method WeighRows(t: Taps, block: seq<int>, temp: array<int32>)
    requires IsBlock(block, 4095) && Fits(t) && |t.weights| * 8 <= temp.Length
    modifies temp
    ensures Products(temp[..], t, block, |t.weights| * 8)
  {
    hide Fits, IsBlock;
    FitsIs(t, block);
    for j: nat := 0 to |t.weights|
      invariant Products(temp[..], t, block, j * 8)
    {
      for i: nat := 0 to 8
        invariant Products(temp[..], t, block, j * 8 + i)
      {
        DownFits(t, block, i, j);
        temp[j * 8 + i] := t.weights[j] * block[(t.start + j) * 8 + i];
      }
    }
  }

  lemma {:induction false} FitsIs(t: Taps, block: seq<int>)
    requires Fits(t) && IsBlock(block, 4095)
    ensures 1 <= |t.weights| && t.start + |t.weights| <= 8 && t.bits >= 1 && |block| == 64
  {}

  lemma {:induction false} DownNext(t: Taps, block: seq<int>, i: nat, n: nat)
    requires |block| == 64 && n <= |t.weights| && t.start + |t.weights| <= 8 && i < 8
    ensures Down(t, block, i, 0) == 0
    ensures n < |t.weights| ==>
      Down(t, block, i, n + 1) == Down(t, block, i, n) + t.weights[n] * block[(t.start + n) * 8 + i]
  {}

  /** Adds up each column of weighted samples. */
  method SumColumns(t: Taps, block: seq<int>, temp: array<int32>, sumsAt: nat)
    requires IsBlock(block, 4095) && Fits(t) && |t.weights| * 8 <= sumsAt && sumsAt + 8 <= temp.Length
    requires Products(temp[..], t, block, |t.weights| * 8)
    modifies temp
    ensures SumsIn(temp[..], sumsAt, RowSums(t, block), 8)
  {
    hide Fits, IsBlock, Down;
    FitsIs(t, block);
    for i: nat := 0 to 8
      invariant Products(temp[..], t, block, |t.weights| * 8)
      invariant SumsIn(temp[..], sumsAt, RowSums(t, block), i)
    {
      temp[sumsAt + i] := SumColumn(t, block, temp, i);
    }
  }

  method SumColumn(t: Taps, block: seq<int>, temp: array<int32>, i: nat) returns (sum: int32)
    requires IsBlock(block, 4095) && Fits(t) && i < 8 && t.start + |t.weights| <= 8
    requires Products(temp[..], t, block, |t.weights| * 8)
    ensures sum as int == Down(t, block, i, |t.weights|)
  {
    hide Fits, IsBlock, Down;
    FitsIs(t, block);
    DownNext(t, block, i, 0);
    sum := 0;
    for j: nat := 0 to |t.weights|
      invariant sum as int == Down(t, block, i, j)
    {
      DownNext(t, block, i, j);
      DownFits(t, block, i, j + 1);
      assert temp[..][j * 8 + i] as int == t.weights[j] * block[(t.start + j) * 8 + i];
      sum := sum as int + temp[j * 8 + i] as int;
    }
  }

  /** The half added for rounding stays small. */
  lemma {:induction false} HalfFits(bits: nat)
    requires 1 <= bits <= 18
    ensures Pow2(bits - 1) <= 131072
  {
    assert Pow2(3) == 8;
    assert Pow2(17) == 131072 by {
      assert Pow2(5) == 32 && Pow2(10) == 1024 && Pow2(15) == 32768;
    }
    PowGrows(bits - 1, 17);
  }

  lemma {:induction false} PowGrows(a: nat, b: nat)
    requires a <= b
    ensures Pow2(a) <= Pow2(b)
  {
    if a < b { PowGrows(a, b - 1); }
  }

  lemma {:induction false} SumsBounded(t: Taps, block: seq<int>)
    requires IsBlock(block, 4095) && Fits(t)
    ensures forall i :: 0 <= i < 8 ==> Abs(RowSums(t, block)[i]) <= DOWN_LIMIT
  {
    forall i | 0 <= i < 8 ensures Abs(RowSums(t, block)[i]) <= DOWN_LIMIT { DownFits(t, block, i, |t.weights|); }
  }

  /** What one tap adds to a pixel. */
  function Share(t: Taps, sums: seq<int>, i: nat): int
    requires |sums| == 8 && i < |t.weights| && t.start + |t.weights| <= 8
  {
    t.weights[i] * sums[t.start + i]
  }

  lemma {:induction false} NextShare(t: Taps, sums: seq<int>, n: nat)
    requires |sums| == 8 && Fits(t) && n <= |t.weights| && forall i :: 0 <= i < 8 ==> Abs(sums[i]) <= DOWN_LIMIT
    ensures t.start + |t.weights| <= 8 && Across(t, sums, 0) == 0
    ensures n < |t.weights| ==>
      && Across(t, sums, n + 1) == Across(t, sums, n) + Share(t, sums, n)
      && -1073479680 <= Share(t, sums, n) <= 1073479680 && -1073479680 <= Across(t, sums, n + 1) <= 1073479680
      && Share(t, sums, n) == t.weights[n] * sums[t.start + n]
  {
    AcrossFits(t, sums, n);
    if n < |t.weights| { AcrossFits(t, sums, n + 1); }
  }

  /** Weighs the column sums under an output pixel. */
  method WeighSums(t: Taps, ghost sums: seq<int>, temp: array<int32>, sumsAt: nat)
    requires Fits(t) && t.start + |t.weights| <= 8 && sumsAt + 16 <= temp.Length
    requires |sums| == 8 && (forall i :: 0 <= i < 8 ==> Abs(sums[i]) <= DOWN_LIMIT) && SumsIn(temp[..], sumsAt, sums, 8)
    modifies temp
    ensures SumsIn(temp[..], sumsAt, sums, 8)
    ensures forall m :: sumsAt + 8 <= m < sumsAt + 8 + |t.weights| ==> temp[m] as int == Share(t, sums, m - sumsAt - 8)
  {
    hide Across, Fits, Share;
    for i: nat := 0 to |t.weights|
      invariant SumsIn(temp[..], sumsAt, sums, 8)
      invariant forall m :: sumsAt + 8 <= m < sumsAt + 8 + i ==> temp[m] as int == Share(t, sums, m - sumsAt - 8)
    {
      NextShare(t, sums, i);
      assert temp[..][sumsAt + t.start + i] as int == sums[t.start + i];
      temp[sumsAt + 8 + i] := t.weights[i] * temp[sumsAt + t.start + i] as int;
    }
  }

  /** Adds the weighted column sums to the half for rounding. */
  method AddShares(t: Taps, ghost sums: seq<int>, temp: array<int32>, productsAt: nat, bits: nat) returns (sum: int32)
    requires Fits(t) && t.start + |t.weights| <= 8 && productsAt + |t.weights| <= temp.Length && 1 <= bits <= 18
    requires |sums| == 8 && (forall i :: 0 <= i < 8 ==> Abs(sums[i]) <= DOWN_LIMIT)
    requires forall m :: productsAt <= m < productsAt + |t.weights| ==> temp[m] as int == Share(t, sums, m - productsAt)
    ensures sum as int == Pow2(bits - 1) + Across(t, sums, |t.weights|)
  {
    hide Across, Fits, Share, Pow2;
    HalfFits(bits);
    sum := Pow2(bits - 1);
    NextShare(t, sums, 0);
    for i: nat := 0 to |t.weights|
      invariant sum as int == Pow2(bits - 1) + Across(t, sums, i)
    {
      NextShare(t, sums, i);
      sum := sum as int + temp[productsAt + i] as int;
    }
  }

  lemma {:induction false} DoubleSumIs(row: Taps, column: Taps, block: seq<int>)
    requires |block| == 64 && row.start + |row.weights| <= 8 && column.start + |column.weights| <= 8
    ensures DoubleSum(row, column, block) == Across(column, RowSums(row, block), |column.weights|)
  {}

  /** One output pixel from the column sums. */
  method ScalePixel(row: Taps, column: Taps, block: seq<int>, temp: array<int32>, sumsAt: nat, lut: seq<byte>)
    returns (pixel: byte)
    requires IsBlock(block, 4095) && Fits(row) && Fits(column) && row.bits + column.bits <= 18
      && sumsAt + 16 <= temp.Length
    requires SumsIn(temp[..], sumsAt, RowSums(row, block), 8) && |lut| == 4096
    modifies temp
    ensures pixel == ScaledPixel(row, column, block, lut)
    ensures SumsIn(temp[..], sumsAt, RowSums(row, block), 8)
  {
    hide Pow2, DoubleSum, SumsIn, Fits, IsBlock, RowSums, Across, Share;
    var bits := row.bits + column.bits;
    FitsIs(row, block);
    FitsIs(column, block);
    SumsBounded(row, block);
    DoubleSumIs(row, column, block);
    WeighSums(column, RowSums(row, block), temp, sumsAt);
    var sum := AddShares(column, RowSums(row, block), temp, sumsAt + 8, bits);
    if sum < 0 {
      pixel := 0;
    } else if sum as int >= 4096 * Pow2(bits) {
      pixel := 255;
    } else {
      LutIndex(sum, Pow2(bits));
      pixel := lut[sum as int / Pow2(bits)];
    }
  }

  /** A whole block; its pixels go to n rows of the output from column outputCol on. */
  method ScaleBlock(block: seq<int>, table: seq<Taps>, lut: seq<byte>, lines: nat, output: array2<byte>, outputCol: nat)
    requires |block| == 64 && IsBlock(block, 4095) && AllFit(table) && |lut| == 4096
    requires forall k :: 0 <= k < |table| ==> |table[k].weights| <= lines && table[k].bits <= 9
    requires |table| <= output.Length0 && outputCol + |table| <= output.Length1
    modifies output
    ensures forall y, x :: 0 <= y < output.Length0 && 0 <= x < output.Length1 ==>
      output[y, x] == if y < |table| && outputCol <= x < outputCol + |table|
                      then ScaledPixel(table[y], table[x - outputCol], block, lut) else old(output[y, x])
  {
    hide Fits, IsBlock, ScaledPixel, Products, SumsIn, RowSums;
    var n, temp := |table|, new int32[lines * 8 + 16](_ => 0);
    for r: nat := 0 to n
      invariant forall y, x :: 0 <= y < output.Length0 && 0 <= x < output.Length1 ==>
        output[y, x] == if y < r && outputCol <= x < outputCol + n
                        then ScaledPixel(table[y], table[x - outputCol], block, lut) else old(output[y, x])
    {
      FitsIs(table[r], block);
      WeighRows(table[r], block, temp);
      SumColumns(table[r], block, temp, lines * 8);
      for c: nat := 0 to n
        invariant SumsIn(temp[..], lines * 8, RowSums(table[r], block), 8)
        invariant forall y, x :: 0 <= y < output.Length0 && 0 <= x < output.Length1 ==>
          output[y, x] == if (y < r && outputCol <= x < outputCol + n) || (y == r && outputCol <= x < outputCol + c)
                          then ScaledPixel(table[y], table[x - outputCol], block, lut) else old(output[y, x])
      {
        output[r, outputCol + c] := ScalePixel(table[r], table[c], block, temp, lines * 8, lut);
      }
    }
  }

  /** The longest list of weights in the n by n table. */
  function Lines(n: nat): nat {
    if n == 1 then 8 else if n <= 3 then 6 else 4
  }

  lemma {:induction false} TablesSmall(n: nat)
    requires 1 <= n <= 7
    ensures AllFit(Table(n)) && forall k :: 0 <= k < n ==> |Table(n)[k].weights| <= Lines(n) && Table(n)[k].bits <= 9
  {
    TablesFit(n);
  }

  lemma {:induction false} ByteBlock(input: seq<byte>)
    requires |input| == 64
    ensures IsBlock(input, 255) && IsBlock(input, 4095)
  {}

  /** The plain n by n scaler. */
  method ScaleSpatial(n: nat, input: seq<byte>, output: array2<byte>, outputCol: nat)
    requires 1 <= n <= 7 && |input| == 64 && n <= output.Length0 && outputCol + n <= output.Length1
    modifies output
    ensures AllFit(Table(n))
    ensures forall y, x :: 0 <= y < output.Length0 && 0 <= x < output.Length1 ==>
      output[y, x] == if y < n && outputCol <= x < outputCol + n
                      then ScaledPixel(Table(n)[y], Table(n)[x - outputCol], input, LowByte()) else old(output[y, x])
  {
    hide *;
    TablesSmall(n);
    ByteBlock(input);
    ScaleBlock(input, Table(n), LowByte(), Lines(n), output, outputCol);
  }

  /** Samples turned linear by a table of 256 entries. */
  function Linearized(input: seq<byte>, toLinear: seq<nat>): (block: seq<int>)
    requires |input| == 64 && |toLinear| == 256
    ensures |block| == 64 && forall k :: 0 <= k < 64 ==> block[k] == toLinear[input[k]]
  {
    seq(64, k requires 0 <= k < 64 => toLinear[input[k]])
  }

  lemma {:induction false} LinearBlock(input: seq<byte>, toLinear: seq<nat>)
    requires |input| == 64 && |toLinear| == 256 && forall v :: 0 <= v < 256 ==> toLinear[v] < 4096
    ensures IsBlock(Linearized(input, toLinear), 4095)
  {}

  /** The colour-aware n by n scaler: scales linear light between two tables, neither ever indexed outside. */
  method ScaleSpatialSrgb(n: nat, input: seq<byte>, toLinear: seq<nat>, toSrgb: seq<byte>, output: array2<byte>,
                          outputCol: nat)
    requires 1 <= n <= 7 && |input| == 64 && n <= output.Length0 && outputCol + n <= output.Length1
    requires |toLinear| == 256 && (forall v :: 0 <= v < 256 ==> toLinear[v] < 4096) && |toSrgb| == 4096
    modifies output
    ensures AllFit(Table(n))
    ensures forall y, x :: 0 <= y < output.Length0 && 0 <= x < output.Length1 ==>
      output[y, x] == if y < n && outputCol <= x < outputCol + n
                      then ScaledPixel(Table(n)[y], Table(n)[x - outputCol], Linearized(input, toLinear), toSrgb)
                      else old(output[y, x])
  {
    hide *;
    TablesSmall(n);
    LinearBlock(input, toLinear);
    ScaleBlock(Linearized(input, toLinear), Table(n), toSrgb, Lines(n), output, outputCol);
  }

  /** A block of one byte value comes out as that value, or as what its linear value is turned back into. */
  lemma {:induction false} OneByteScales(n: nat, y: nat, x: nat, input: seq<byte>, v: byte, toLinear: seq<nat>,
                                         toSrgb: seq<byte>)
    requires 1 <= n <= 7 && y < n && x < n && |input| == 64 && forall k :: 0 <= k < 64 ==> input[k] == v
    requires |toLinear| == 256 && (forall u :: 0 <= u < 256 ==> toLinear[u] < 4096) && |toSrgb| == 4096
    ensures AllFit(Table(n)) && ScaledPixel(Table(n)[y], Table(n)[x], input, LowByte()) == v
    ensures ScaledPixel(Table(n)[y], Table(n)[x], Linearized(input, toLinear), toSrgb) == toSrgb[toLinear[v]]
  {
    hide Fits, ScaledPixel, Table;
    TablesFit(n);
    OneValueScales(Table(n)[y], Table(n)[x], input, LowByte(), v);
    OneValueScales(Table(n)[y], Table(n)[x], Linearized(input, toLinear), toSrgb, toLinear[v]);
  }

  /** A block of one byte value. */
  function Plain(v: byte): (input: seq<byte>)
    ensures |input| == 64 && forall k :: 0 <= k < 64 ==> input[k] == v
  {
    seq(64, k => v)
  }

  /** The colour-aware scalers keep every block of one byte exactly when the two tables undo each other. */
  lemma {:induction false} BytesStayIff(n: nat, toLinear: seq<nat>, toSrgb: seq<byte>)
    requires 1 <= n <= 7 && AllFit(Table(n))
    requires |toLinear| == 256 && (forall u :: 0 <= u < 256 ==> toLinear[u] < 4096) && |toSrgb| == 4096
    ensures (forall v: byte, y: nat, x: nat :: y < n && x < n ==>
               ScaledPixel(Table(n)[y], Table(n)[x], Linearized(Plain(v), toLinear), toSrgb) == v)
            <==> forall v: byte :: toSrgb[toLinear[v]] == v
  {
    hide Fits, ScaledPixel, Table, Linearized;
    forall v: byte, y: nat, x: nat | y < n && x < n
      ensures ScaledPixel(Table(n)[y], Table(n)[x], Linearized(Plain(v), toLinear), toSrgb) == toSrgb[toLinear[v]]
    {
      OneByteScales(n, y, x, Plain(v), v, toLinear, toSrgb);
    }
    if forall v: byte, y: nat, x: nat :: y < n && x < n ==>
         ScaledPixel(Table(n)[y], Table(n)[x], Linearized(Plain(v), toLinear), toSrgb) == v
    {
      forall v: byte ensures toSrgb[toLinear[v]] == v {
        assert ScaledPixel(Table(n)[0], Table(n)[0], Linearized(Plain(v), toLinear), toSrgb) == v;
      }
    }
  }
}
