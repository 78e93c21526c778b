// Halving in linear light, as the colour-aware routine does: means of light
// rather than of bytes, as long as the divisor's square is kept whole.

module HalvingLight {
  import opened Memory
  import opened HalvingSpec
  import opened HalvingMeans

  /** The colour context's conversions; the last says what becomes of light divided by zero. */
  datatype Light = Light(toFloat: byte -> real, fromFloat: real -> byte, byZero: real -> byte)

  /** The byte for a block's light, divided by as much of the divisor's square as sixteen bits hold. */
  function LightByte(light: Light, sum: real, square: nat): byte {
    if square == 0 then light.byZero(sum) else light.fromFloat(sum / square as real)
  }

  /** Sums of linear light. */
  function LinearLight(light: Light, divisor: nat): Arithmetic<real> {
    Arithmetic(0.0, (x: real, y: real) => x + y, light.toFloat, (x: real) => LightByte(light, x, StoredSquare(divisor)))
  }

  lemma {:induction false} LinearLightLawful(light: Light, divisor: nat)
    ensures Lawful(LinearLight(light, divisor))
  {}

  lemma {:induction false} LightIs(light: Light, divisor: nat, x: real, y: real)
    ensures var ar := LinearLight(light, divisor);
            && ar.zero == 0.0 && ar.lift == light.toFloat && ar.plus(x, y) == x + y
            && ar.lower(x) == LightByte(light, x, StoredSquare(divisor))
  {}

  /** The light of one channel over n pixels. */
  function PixelLight(light: Light, bytes: seq<byte>, at: nat, step: nat, n: nat): real {
    if n == 0 then 0.0
    else PixelLight(light, bytes, at, step, n - 1) + light.toFloat(ByteAt(bytes, at + Times(n - 1, step)))
  }

  /** The light of channel c over the first d rows of a block. */
  function BlockLight(light: Light, bytes: seq<byte>, stride: nat, step: nat, y: nat, p: nat, c: nat, divisor: nat,
                      d: nat): real {
    if d == 0 then 0.0
    else
      var at := Times(Times(y, divisor) + d - 1, stride) + Times(Times(p, divisor), step) + c;
      BlockLight(light, bytes, stride, step, y, p, c, divisor, d - 1) + PixelLight(light, bytes, at, step, divisor)
  }

  /** The byte of the mean of a block's light. */
  function MeanByte(light: Light, bytes: seq<byte>, stride: nat, step: nat, y: nat, p: nat, c: nat, divisor: nat): byte
    requires divisor > 0
  {
    light.fromFloat(BlockLight(light, bytes, stride, step, y, p, c, divisor, divisor) / Square(divisor) as real)
  }

  lemma {:induction false} GatherIsLight(light: Light, acc: real, bytes: seq<byte>, at: nat, step: nat, n: nat,
                                         divisor: nat)
    ensures Gather(LinearLight(light, divisor), acc, bytes, at, step, n) == acc + PixelLight(light, bytes, at, step, n)
  {
    hide LinearLight, Times;
    if n > 0 {
      GatherIsLight(light, acc, bytes, at, step, n - 1, divisor);
      LightIs(light, divisor, acc + PixelLight(light, bytes, at, step, n - 1),
              light.toFloat(ByteAt(bytes, at + Times(n - 1, step))));
    }
  }

  lemma {:induction false} RowsAreLight(light: Light, bytes: seq<byte>, stride: nat, step: nat, y: nat, b: nat,
                                        divisor: nat, count: nat, d: nat)
    requires step > 0 && TakesBlock(divisor, count)
    ensures GatherRows(LinearLight(light, divisor), bytes, stride, step, y, b, divisor, count, d) ==
            BlockLight(light, bytes, stride, step, y, b / step, b % step, divisor, d)
  {
    hide LinearLight, Times;
    var ar := LinearLight(light, divisor);
    LightIs(light, divisor, 0.0, 0.0);
    if d > 0 {
      RowsAreLight(light, bytes, stride, step, y, b, divisor, count, d - 1);
      var at := Times(Times(y, divisor) + d - 1, stride) + SourceByte(b, step, divisor, count);
      GatherIsLight(light, GatherRows(ar, bytes, stride, step, y, b, divisor, count, d - 1), bytes, at, step, divisor,
                    divisor);
    }
  }

  /** Every output pixel takes its own block and the square is kept whole. */
  predicate LightExact(divisor: nat, count: nat) {
    TakesBlock(divisor, count) && divisor <= 255
  }

  /** Divisors 3 to 255, and 2 for an odd number of pixels: every byte is that of the mean of its block's light. */
  lemma {:induction false} LightMean(light: Light, bytes: seq<byte>, stride: nat, step: nat, y: nat, b: nat,
                                     divisor: nat, count: nat)
    requires step > 0 && LightExact(divisor, count)
    ensures HalvedByte(LinearLight(light, divisor), bytes, stride, step, y, b, divisor, count) ==
            MeanByte(light, bytes, stride, step, y, b / step, b % step, divisor)
  {
    hide Times, SourceByte, GatherRows, BlockLight, StoredSquare;
    RowsAreLight(light, bytes, stride, step, y, b, divisor, count, divisor);
    StoredWhole(divisor);
  }

  // ---------- where the bytes are not means ----------

  /** Light that tells one mean from all others; bytes are their own light. */
  function Telltale(mean: real): Light {
    Light((v: byte) => v as real, (x: real) => if x == mean then 1 else 0, (x: real) => 0)
  }

  lemma {:induction false} PixelLightIsSum(mean: real, bytes: seq<byte>, at: nat, step: nat, n: nat)
    ensures PixelLight(Telltale(mean), bytes, at, step, n) == PixelSum(bytes, at, step, n) as real
  {
    hide Times;
    if n > 0 { PixelLightIsSum(mean, bytes, at, step, n - 1); }
  }

  lemma {:induction false} BlockLightIsSum(
    mean: real, bytes: seq<byte>, stride: nat, step: nat, y: nat, p: nat, c: nat, divisor: nat, d: nat)
    ensures BlockLight(Telltale(mean), bytes, stride, step, y, p, c, divisor, d) ==
            BlockSum(bytes, stride, step, y, p, c, divisor, d) as real
  {
    hide Telltale, Times;
    if d > 0 {
      BlockLightIsSum(mean, bytes, stride, step, y, p, c, divisor, d - 1);
      var at := Times(Times(y, divisor) + d - 1, stride) + Times(Times(p, divisor), step) + c;
      PixelLightIsSum(mean, bytes, at, step, divisor);
    }
  }

  lemma {:induction false} GatherIsWhole(mean: real, acc: nat, bytes: seq<byte>, at: nat, step: nat, n: nat,
                                         divisor: nat)
    ensures Gather(LinearLight(Telltale(mean), divisor), acc as real, bytes, at, step, n) ==
            Gather<nat>(Whole(), acc, bytes, at, step, n) as real
  {
    GatherIsLight(Telltale(mean), acc as real, bytes, at, step, n, divisor);
    GatherIsSum(acc, bytes, at, step, n);
    PixelLightIsSum(mean, bytes, at, step, n);
  }

  lemma {:induction false} RowsAreWhole(
    mean: real, bytes: seq<byte>, stride: nat, step: nat, y: nat, b: nat, divisor: nat, count: nat, d: nat)
    requires step > 0
    ensures GatherRows(LinearLight(Telltale(mean), divisor), bytes, stride, step, y, b, divisor, count, d) ==
            GatherRows<nat>(Whole(), bytes, stride, step, y, b, divisor, count, d) as real
  {
    hide Telltale, LinearLight, Whole, Times, SourceByte, Taps;
    LightIs(Telltale(mean), divisor, 0.0, 0.0);
    WholeIs(0, 0, 0);
    if d > 0 {
      RowsAreWhole(mean, bytes, stride, step, y, b, divisor, count, d - 1);
      var at := Times(Times(y, divisor) + d - 1, stride) + SourceByte(b, step, divisor, count);
      GatherIsWhole(mean, GatherRows<nat>(Whole(), bytes, stride, step, y, b, divisor, count, d - 1), bytes, at, step,
                    Taps(divisor), divisor);
    }
  }

  /** A bitmap whose halving misses the mean of the light: one bright pixel that no pair takes, or all white. */
  function Misread(divisor: nat, step: nat, length: nat): (bytes: seq<byte>)
    ensures |bytes| == length
  {
    seq<byte>(length, i => if divisor != 2 || i == 3 * step then 255 else 0)
  }

  /** For a white block the sum is 255 times as much as it is divided by, or nothing, or a square not kept whole. */
  lemma {:induction false} WhiteMisread(bytes: seq<byte>, stride: nat, step: nat, divisor: nat, count: nat)
    requires step > 0 && count > 0 && OneValue(bytes, 255) && (divisor == 1 || divisor > 255)
    requires Holds(|bytes|, stride, step, count, 1, divisor)
    ensures GatherRows<nat>(Whole(), bytes, stride, step, 0, 0, divisor, count, divisor) ==
            if divisor == 1 then 0 else 255 * Square(divisor)
    ensures BlockSum(bytes, stride, step, 0, 0, 0, divisor, divisor) == 255 * Square(divisor)
  {
    hide Times, Holds, Square, GatherRows, BlockSum;
    Monotone(1, count, step);
    Distributes(1, 0, step);
    RowsOneValue(bytes, stride, step, 0, 0, divisor, count, 1, divisor, 255);
    BlockOneValue(bytes, stride, step, 0, 0, 0, divisor, count, 1, divisor, 255);
    SameFactor(divisor, 255);
    if divisor == 1 { NothingTaken(); }
  }

  lemma {:induction false} NothingTaken()
    ensures Times(1, Times(Taps(1), 255)) == 0
  {}

  lemma {:induction false} PairMisread(bytes: seq<byte>, stride: nat, step: nat, count: nat)
    requires step > 0 && count > 0 && count % 2 == 0 && Holds(|bytes|, stride, step, count, 1, 2)
    requires forall i :: 0 <= i < |bytes| ==> bytes[i] == if i == 3 * step then 255 else 0
    ensures step < Times(count, step) && step / step == 1 && step % step == 0
    ensures GatherRows<nat>(Whole(), bytes, stride, step, 0, step, 2, count, 2) == 0
    ensures BlockSum(bytes, stride, step, 0, 1, 0, 2, 2) == 255
  {
    hide GatherRows, BlockSum, PairSum;
    FewSteps(count, step, stride);
    TwoRows(bytes, stride, step, 0, step, count);
    PairSumIs(bytes, stride, step);
    BlockSumIs(bytes, stride, step, count);
  }

  lemma {:induction false} DifferentQuotient(sum: nat, part: nat, square: nat, stored: nat)
    requires 0 < stored && square > 0 && sum == 255 * square && (part == 0 || (part == sum && stored < square))
    ensures part as real / stored as real != sum as real / square as real
  {
    assert sum as real / square as real == 255.0;
    var q := part as real / stored as real;
    assert q * stored as real == part as real;
  }

  /** For every other divisor, of which those from 256 on are divided by part of their square, some light and some
      bitmap of any size give a byte that is not that of the mean. */
  lemma {:induction false} OnlyLightMean(stride: nat, step: nat, divisor: nat, count: nat, length: nat)
    requires step > 0 && count > 0 && divisor > 0 && !LightExact(divisor, count)
      && Holds(length, stride, step, count, 1, divisor)
    ensures var bytes, b := Misread(divisor, step, length), if divisor == 2 then step else 0;
            b < Times(count, step) && exists light ::
              HalvedByte(LinearLight(light, divisor), bytes, stride, step, 0, b, divisor, count) !=
              MeanByte(light, bytes, stride, step, 0, b / step, b % step, divisor)
  {
    hide Times, Holds, Square, StoredSquare, GatherRows, BlockSum, BlockLight, LinearLight;
    var bytes, b := Misread(divisor, step, length), if divisor == 2 then step else 0;
    var sum := BlockSum(bytes, stride, step, 0, b / step, b % step, divisor, divisor);
    var part := GatherRows<nat>(Whole(), bytes, stride, step, 0, b, divisor, count, divisor);
    var stored := StoredSquare(divisor);
    var mean := sum as real / Square(divisor) as real;
    var light := Telltale(mean);
    RowsAreWhole(mean, bytes, stride, step, 0, b, divisor, count, divisor);
    BlockLightIsSum(mean, bytes, stride, step, 0, b / step, b % step, divisor, divisor);
    LightIs(light, divisor, part as real, 0.0);
    Monotone(1, count, step);
    Distributes(1, 0, step);
    if divisor == 2 {
      PairMisread(bytes, stride, step, count);
      StoredWhole(2);
      NotZero(255, Square(2));
    } else {
      WhiteMisread(bytes, stride, step, divisor, count);
      StoredIsSquare(divisor);
      StoredAtMost(divisor);
      if stored > 0 { DifferentQuotient(sum, part, Square(divisor), stored); }
    }
    assert MeanByte(light, bytes, stride, step, 0, b / step, b % step, divisor) == 1;
    assert HalvedByte(LinearLight(light, divisor), bytes, stride, step, 0, b, divisor, count) == 0;
  }

  lemma {:induction false} NotZero(sum: nat, square: nat)
    requires sum > 0 && square > 0
    ensures 0.0 / square as real != sum as real / square as real
  {}

  lemma {:induction false} StoredAtMost(divisor: nat)
    ensures StoredSquare(divisor) <= Square(divisor)
  {
    hide Square;
  }

  /** At 256 nothing is left to divide by, and at 257 the light is divided by 513 instead of 66049. */
  lemma {:induction false} SquaresCut()
    ensures StoredSquare(256) == 0 && StoredSquare(257) == 513 && Square(257) == 66049
  {}

  // ---------- bitmaps of one colour ----------

  lemma {:induction false} GatherOneLight(light: Light, divisor: nat, acc: real, bytes: seq<byte>, at: nat, step: nat,
                                          n: nat, v: byte)
    requires OneValue(bytes, v) && (n > 0 ==> at + Times(n - 1, step) < |bytes|)
    ensures Gather(LinearLight(light, divisor), acc, bytes, at, step, n) == acc + n as real * light.toFloat(v)
  {
    if n > 0 {
      if n > 1 { Monotone(n - 2, n - 1, step); }
      GatherOneLight(light, divisor, acc, bytes, at, step, n - 1, v);
    }
  }

  lemma {:induction false} RowsOneLight(light: Light, bytes: seq<byte>, stride: nat, step: nat, y: nat, b: nat,
                                        divisor: nat, count: nat, rows: nat, d: nat, v: byte)
    requires step > 0 && divisor >= 2 && OneValue(bytes, v) && y < rows && b < Times(count, step) && d <= divisor
    requires Holds(|bytes|, stride, step, count, rows, divisor)
    ensures GatherRows(LinearLight(light, divisor), bytes, stride, step, y, b, divisor, count, d) ==
            d as real * (divisor as real * light.toFloat(v))
  {
    hide LinearLight, Times, SourceByte, Holds;
    var ar := LinearLight(light, divisor);
    LightIs(light, divisor, 0.0, 0.0);
    if d > 0 {
      RowsOneLight(light, bytes, stride, step, y, b, divisor, count, rows, d - 1, v);
      RowFits(|bytes|, stride, step, count, rows, divisor, y, d - 1);
      ByteInRow(b, step, divisor, count, divisor - 1);
      var at := Times(Times(y, divisor) + d - 1, stride) + SourceByte(b, step, divisor, count);
      GatherOneLight(light, divisor, GatherRows(ar, bytes, stride, step, y, b, divisor, count, d - 1), bytes, at, step,
                     divisor, v);
      OneMore(d - 1, divisor as real * light.toFloat(v));
    }
  }

  lemma {:induction false} OneMore(d: nat, x: real)
    ensures d as real * x + x == (d + 1) as real * x
  {}

  /** For divisors 2 to 255 a bitmap of one value becomes what that value's own light turns back into, paired or not. */
  lemma {:induction false} OneLightStays(light: Light, bytes: seq<byte>, stride: nat, step: nat, y: nat, b: nat,
                                         divisor: nat, count: nat, rows: nat, v: byte)
    requires step > 0 && 2 <= divisor <= 255 && OneValue(bytes, v) && y < rows && b < Times(count, step)
    requires Holds(|bytes|, stride, step, count, rows, divisor)
    ensures HalvedByte(LinearLight(light, divisor), bytes, stride, step, y, b, divisor, count) ==
      light.fromFloat(light.toFloat(v))
  {
    hide Times, SourceByte, Holds, Square, StoredSquare, GatherRows, LinearLight;
    var ar := LinearLight(light, divisor);
    RowsOneLight(light, bytes, stride, step, y, b, divisor, count, rows, divisor, v);
    var sum := GatherRows(ar, bytes, stride, step, y, b, divisor, count, divisor);
    StoredWhole(divisor);
    LightDivides(divisor, light.toFloat(v), sum);
    LightIs(light, divisor, sum, 0.0);
  }

  lemma {:induction false} LightDivides(divisor: nat, light: real, sum: real)
    requires divisor >= 1 && sum == divisor as real * (divisor as real * light)
    ensures Square(divisor) > 0 && sum / Square(divisor) as real == light
  {
    var d, square := divisor as real, Square(divisor) as real;
    assert d * (d * light) == (d * d) * light;
    SquareOfReal(divisor);
    RealCancels(light, square);
  }

  lemma {:induction false} SquareOfReal(divisor: nat)
    ensures Square(divisor) as real == divisor as real * divisor as real
  {}

  lemma {:induction false} RealCancels(x: real, n: real)
    requires n != 0.0
    ensures n * x / n == x
  {}
}
