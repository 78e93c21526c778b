// The two arithmetics of halving, and when the bytes they give are the means of
// their blocks.

module HalvingMeans {
  import opened Memory
  import opened HalvingSpec

  // ---------- sixteen-bit sums ----------

  /** A power of two: its lowest set bit is its only one. */
  predicate IsPowerOfTwo(x: nat) {
    x == 1 || (x > 1 && x % 2 == 0 && IsPowerOfTwo(x / 2))
  }

  /** How often x can be shifted right before nothing is left, less one. */
  function IntLog2(x: nat): int {
    if x == 0 then -1 else IntLog2(x / 2) + 1
  }

  function ShiftRight(x: nat, n: nat): nat {
    if n == 0 then x else ShiftRight(x / 2, n - 1)
  }

  function Square(divisor: nat): (s: nat)
    ensures divisor > 0 ==> s > 0
  {
    Times(divisor, divisor)
  }

  /** The code keeps the square in sixteen bits; for multiples of 256 nothing is left to divide by. */
  function StoredSquare(divisor: nat): nat {
    Square(divisor) % 65536
  }

  lemma {:induction false} SquareRange(divisor: nat)
    ensures divisor <= 255 ==> Square(divisor) <= 65025
    ensures divisor > 255 ==> Square(divisor) > 65535
  {
    if divisor <= 255 {
      assert 255 * 255 - divisor * divisor == (255 - divisor) * (255 + divisor);
    } else {
      assert divisor * divisor - 256 * 256 == (divisor - 256) * (divisor + 256);
    }
  }

  /** Exactly up to 255 is the square kept whole. */
  lemma {:induction false} StoredIsSquare(divisor: nat)
    ensures StoredSquare(divisor) == Square(divisor) <==> divisor <= 255
  {
    hide Square;
    SquareRange(divisor);
  }

  lemma {:induction false} StoredWhole(divisor: nat)
    requires 1 <= divisor <= 255
    ensures StoredSquare(divisor) == Square(divisor) > 0
  {
    hide StoredSquare;
    StoredIsSquare(divisor);
  }

  function Shift(divisor: nat): (shift: nat)
    requires StoredSquare(divisor) > 0
  {
    if IsPowerOfTwo(StoredSquare(divisor)) then LogIsNat(StoredSquare(divisor)); IntLog2(StoredSquare(divisor)) else 0
  }

  lemma {:induction false} LogIsNat(x: nat)
    requires x > 0
    ensures IntLog2(x) >= 0
  {
    if x > 1 { LogIsNat(x / 2); }
  }

  /** Division by the square of the divisor, as a shift when that is a power of two; the low eight bits of it. */
  function Lowered(x: nat, divisor: nat): byte
    requires StoredSquare(divisor) > 0
  {
    (if Shift(divisor) > 0 then ShiftRight(x, Shift(divisor)) else x / StoredSquare(divisor)) % 256
  }

  /** Sums kept in sixteen bits. */
  function SixteenBit(divisor: nat): Arithmetic<nat>
    requires StoredSquare(divisor) > 0
  {
    Arithmetic<nat>.Arithmetic(0, (x: nat, y: nat) => (x + y) % 65536, (v: byte) => v, (x: nat) => Lowered(x, divisor))
  }

  function SixteenBitQuotient(sum: nat, square: nat): nat
    requires square > 0
  {
    sum % 65536 / square
  }

  lemma {:induction false} SixteenBitLawful(divisor: nat)
    requires StoredSquare(divisor) > 0
    ensures Lawful<nat>(SixteenBit(divisor))
  {
    var ar := SixteenBit(divisor);
    forall x: nat, y: nat, z: nat ensures ar.plus(ar.plus(x, y), z) == ar.plus(x, ar.plus(y, z)) {
      WrapsOnce(x, y, z);
    }
  }

  lemma {:induction false} WrapsOnce(x: nat, y: nat, z: nat)
    ensures ((x + y) % 65536 + z) % 65536 == (x + (y + z) % 65536) % 65536
  {}

  lemma {:induction false} ShiftDivides(x: nat, p: nat)
    requires IsPowerOfTwo(p)
    ensures IntLog2(p) >= 0 && ShiftRight(x, IntLog2(p)) == x / p
  {
    if p > 1 {
      ShiftDivides(x / 2, p / 2);
      HalfAtATime(x, p / 2);
    }
  }

  lemma {:induction false} HalfAtATime(x: nat, q: nat)
    requires q > 0
    ensures x / 2 / q == x / (2 * q)
  {
    var a := x / 2 / q;
    var r := x - a * (2 * q);
    assert x / 2 == a * q + x / 2 % q;
    assert a * (2 * q) == 2 * (a * q);
    assert 0 <= r < 2 * q;
    DivisionIs(x, 2 * q, a, r);
  }

  /** Shifting and dividing agree for every divisor. */
  lemma {:induction false} LoweredDivides(x: nat, divisor: nat)
    requires StoredSquare(divisor) > 0
    ensures Lowered(x, divisor) == x / StoredSquare(divisor) % 256
  {
    if IsPowerOfTwo(StoredSquare(divisor)) { ShiftDivides(x, StoredSquare(divisor)); }
  }

  // ---------- exact sums ----------

  function Whole(): Arithmetic<nat> {
    Arithmetic<nat>.Arithmetic(0, (x: nat, y: nat) => x + y, (v: byte) => v, (x: nat) => x % 256)
  }

  lemma {:induction false} AddWraps(x: nat, v: nat)
    ensures (x % 65536 + v) % 65536 == (x + v) % 65536
  {}

  lemma {:induction false} SixteenBitIs(divisor: nat, x: nat, y: nat, v: byte)
    requires StoredSquare(divisor) > 0
    ensures SixteenBit(divisor).zero == 0 && SixteenBit(divisor).plus(x, y) == (x + y) % 65536
      && SixteenBit(divisor).lift(v) == v
    ensures SixteenBit(divisor).lower(x) == Lowered(x, divisor)
  {}

  lemma {:induction false} WholeIs(x: nat, y: nat, v: byte)
    ensures Whole().zero == 0 && Whole().plus(x, y) == x + y && Whole().lift(v) == v
  {}

  lemma {:induction false} GatherWraps(acc: nat, wrapped: nat, bytes: seq<byte>, at: nat, step: nat, n: nat,
                                       divisor: nat)
    requires StoredSquare(divisor) > 0 && wrapped == acc % 65536
    ensures Gather<nat>(SixteenBit(divisor), wrapped, bytes, at, step, n) ==
      Gather<nat>(Whole(), acc, bytes, at, step, n) % 65536
  {
    hide SixteenBit, Whole, Times;
    if n > 0 {
      GatherWraps(acc, wrapped, bytes, at, step, n - 1, divisor);
      var v := ByteAt(bytes, at + Times(n - 1, step));
      var sum := Gather<nat>(Whole(), acc, bytes, at, step, n - 1);
      SixteenBitIs(divisor, sum % 65536, v, v);
      WholeIs(sum, v, v);
      AddWraps(sum, v);
    }
  }

  /** The sixteen-bit sum is the exact one modulo 65536. */
  lemma {:induction false} RowsWrap(bytes: seq<byte>, stride: nat, step: nat, y: nat, b: nat, divisor: nat, count: nat,
                                    d: nat)
    requires step > 0 && StoredSquare(divisor) > 0
    ensures GatherRows<nat>(SixteenBit(divisor), bytes, stride, step, y, b, divisor, count, d) ==
            GatherRows<nat>(Whole(), bytes, stride, step, y, b, divisor, count, d) % 65536
  {
    hide SixteenBit, Whole, Times, SourceByte, Taps;
    SixteenBitIs(divisor, 0, 0, 0);
    WholeIs(0, 0, 0);
    if d > 0 {
      RowsWrap(bytes, stride, step, y, b, divisor, count, d - 1);
      GatherWraps(GatherRows<nat>(Whole(), bytes, stride, step, y, b, divisor, count, d - 1),
                  GatherRows<nat>(SixteenBit(divisor), bytes, stride, step, y, b, divisor, count, d - 1), bytes,
                  Times(Times(y, divisor) + d - 1, stride) + SourceByte(b, step, divisor, count), step, Taps(divisor),
                    divisor);
    }
  }

  lemma {:induction false} GatherBound(acc: nat, bytes: seq<byte>, at: nat, step: nat, n: nat)
    ensures Gather<nat>(Whole(), acc, bytes, at, step, n) <= acc + Times(n, 255)
  {
    if n > 0 { GatherBound(acc, bytes, at, step, n - 1); }
  }

  lemma {:induction false} RowsBound(bytes: seq<byte>, stride: nat, step: nat, y: nat, b: nat, divisor: nat,
                                     count: nat, d: nat)
    requires step > 0
    ensures GatherRows<nat>(Whole(), bytes, stride, step, y, b, divisor, count, d) <=
      Times(d, Times(Taps(divisor), 255))
  {
    if d > 0 {
      RowsBound(bytes, stride, step, y, b, divisor, count, d - 1);
      GatherBound(GatherRows<nat>(Whole(), bytes, stride, step, y, b, divisor, count, d - 1), bytes,
                  Times(Times(y, divisor) + d - 1, stride) + SourceByte(b, step, divisor, count), step, Taps(divisor));
      Distributes(d - 1, 1, Times(Taps(divisor), 255));
    }
  }

  // ---------- the mean of a block ----------

  /** The sum of one channel over n pixels of a row. */
  function PixelSum(bytes: seq<byte>, at: nat, step: nat, n: nat): nat {
    if n == 0 then 0 else PixelSum(bytes, at, step, n - 1) + ByteAt(bytes, at + Times(n - 1, step))
  }

  /** The sum of channel c over the first d rows of the block of divisor by divisor pixels at block column p and row
      y. */
  function BlockSum(bytes: seq<byte>, stride: nat, step: nat, y: nat, p: nat, c: nat, divisor: nat, d: nat): nat {
    if d == 0 then 0
    else BlockSum(bytes, stride, step, y, p, c, divisor, d - 1)
           + PixelSum(bytes, Times(Times(y, divisor) + d - 1, stride) + Times(Times(p, divisor), step) + c, step,
                      divisor)
  }

  /** Every output pixel takes its own block. */
  predicate TakesBlock(divisor: nat, count: nat) {
    divisor >= 3 || (divisor == 2 && count % 2 == 1)
  }

  /** The sums are means of blocks and fit sixteen bits. */
  predicate Exact(divisor: nat, count: nat) {
    3 <= divisor <= 16 || (divisor == 2 && count % 2 == 1)
  }

  lemma {:induction false} ExactTakes(divisor: nat, count: nat)
    requires Exact(divisor, count)
    ensures TakesBlock(divisor, count)
  {}

  lemma {:induction false} GatherIsSum(acc: nat, bytes: seq<byte>, at: nat, step: nat, n: nat)
    ensures Gather<nat>(Whole(), acc, bytes, at, step, n) == acc + PixelSum(bytes, at, step, n)
  {
    if n > 0 { GatherIsSum(acc, bytes, at, step, n - 1); }
  }

  lemma {:induction false} RowsAreBlock(bytes: seq<byte>, stride: nat, step: nat, y: nat, b: nat, divisor: nat,
                                        count: nat, d: nat)
    requires step > 0 && TakesBlock(divisor, count)
    ensures GatherRows<nat>(Whole(), bytes, stride, step, y, b, divisor, count, d) ==
            BlockSum(bytes, stride, step, y, b / step, b % step, divisor, d)
  {
    if d > 0 {
      RowsAreBlock(bytes, stride, step, y, b, divisor, count, d - 1);
      GatherIsSum(GatherRows<nat>(Whole(), bytes, stride, step, y, b, divisor, count, d - 1), bytes,
                  Times(Times(y, divisor) + d - 1, stride) + SourceByte(b, step, divisor, count), step, divisor);
    }
  }

  lemma {:induction false} SmallSquare(divisor: nat)
    requires 2 <= divisor <= 16
    ensures Times(divisor, Times(divisor, 255)) == 255 * Square(divisor) <= 65280 && Square(divisor) >= 4
  {
    assert divisor * (divisor * 255) == 255 * (divisor * divisor);
    assert divisor * divisor <= 16 * 16;
  }

  lemma {:induction false} MeanOfBytes(sum: nat, square: nat)
    requires square > 0 && sum <= 255 * square <= 65280
    ensures SixteenBitQuotient(sum, square) % 256 == sum / square <= 255
  {
    assert sum % 65536 == sum;
    var q := sum / square;
    Multiples(q - 256, square);
    assert (q - 256) * square == q * square - 256 * square;
  }

  /** Divisors 3 to 16, and 2 for an odd number of pixels: every byte is the floor of the mean of its block. */
  lemma {:induction false} ExactMean(bytes: seq<byte>, stride: nat, step: nat, y: nat, b: nat, divisor: nat, count: nat)
    requires step > 0 && Exact(divisor, count)
    ensures StoredSquare(divisor) > 0
    ensures HalvedByte<nat>(SixteenBit(divisor), bytes, stride, step, y, b, divisor, count) ==
            BlockSum(bytes, stride, step, y, b / step, b % step, divisor, divisor) / Square(divisor)
  {
    hide *;
    var sum := GatherRows<nat>(Whole(), bytes, stride, step, y, b, divisor, count, divisor);
    ExactBound(bytes, stride, step, y, b, divisor, count);
    ByteIs(bytes, stride, step, y, b, divisor, count);
    ExactTakes(divisor, count);
    RowsAreBlock(bytes, stride, step, y, b, divisor, count, divisor);
    MeanOfBytes(sum, Square(divisor));
  }

  lemma {:induction false} ExactBound(bytes: seq<byte>, stride: nat, step: nat, y: nat, b: nat, divisor: nat,
                                      count: nat)
    requires step > 0 && Exact(divisor, count)
    ensures GatherRows<nat>(Whole(), bytes, stride, step, y, b, divisor, count, divisor) <= 255 * Square(divisor)
    ensures 255 * Square(divisor) <= 65280
    ensures StoredSquare(divisor) == Square(divisor) > 0
  {
    hide GatherRows, Times, Square, StoredSquare;
    RowsBound(bytes, stride, step, y, b, divisor, count, divisor);
    SmallSquare(divisor);
    StoredIsSquare(divisor);
  }

  /** A byte, from the exact sum: what is left of it in sixteen bits, divided. */
  lemma {:induction false} ByteIs(bytes: seq<byte>, stride: nat, step: nat, y: nat, b: nat, divisor: nat, count: nat)
    requires step > 0 && StoredSquare(divisor) > 0
    ensures HalvedByte<nat>(SixteenBit(divisor), bytes, stride, step, y, b, divisor, count) ==
      SixteenBitQuotient(GatherRows<nat>(Whole(), bytes, stride, step, y, b, divisor, count, divisor),
                         StoredSquare(divisor)) % 256
  {
    hide GatherRows, SixteenBit, Whole, Lowered, StoredSquare;
    var sum := GatherRows<nat>(Whole(), bytes, stride, step, y, b, divisor, count, divisor);
    RowsWrap(bytes, stride, step, y, b, divisor, count, divisor);
    SixteenBitIs(divisor, sum % 65536, 0, 0);
    LoweredDivides(sum % 65536, divisor);
  }

  // ---------- a single byte ----------

  /** Where channel c of pixel q in row r lies. */
  function Place(r: nat, q: nat, c: nat, stride: nat, step: nat): nat {
    Times(r, stride) + Times(q, step) + c
  }

  /** Nothing but one byte. */
  ghost predicate OneByte(bytes: seq<byte>, at: nat, v: byte) {
    forall i: nat :: ByteAt(bytes, i) == if i == at then v else 0
  }

  lemma {:induction false} PlacesApart(r: nat, q: nat, c: nat, s: nat, p: nat, e: nat, stride: nat, step: nat)
    requires c < step && e < step && Times(q + 1, step) <= stride && Times(p + 1, step) <= stride
    ensures Place(r, q, c, stride, step) == Place(s, p, e, stride, step) <==> r == s && q == p && c == e
  {
    hide Times;
    if Place(r, q, c, stride, step) == Place(s, p, e, stride, step) {
      Distributes(q, 1, step);
      Distributes(p, 1, step);
      PlaceOf(r, Times(q, step) + c, stride);
      PlaceOf(s, Times(p, step) + e, stride);
      PlaceOf(q, c, step);
      PlaceOf(p, e, step);
    }
  }

  lemma {:induction false} PixelsOfByte(bytes: seq<byte>, r: nat, q: nat, c: nat, v: byte, s: nat, p: nat, e: nat,
                                        stride: nat, step: nat, n: nat)
    requires c < step && e < step && Times(q + 1, step) <= stride && Times(p + n, step) <= stride
    requires OneByte(bytes, Place(r, q, c, stride, step), v)
    ensures PixelSum(bytes, Place(s, p, e, stride, step), step, n) ==
      if r == s && p <= q < p + n && c == e then v else 0
  {
    hide Times, Place;
    if n > 0 {
      Monotone(p + n - 1, p + n, step);
      PixelsOfByte(bytes, r, q, c, v, s, p, e, stride, step, n - 1);
      PlacesApart(r, q, c, s, p + n - 1, e, stride, step);
      PlaceFurther(s, p, n - 1, e, stride, step);
    }
  }

  lemma {:induction false} PlaceFurther(s: nat, p: nat, n: nat, e: nat, stride: nat, step: nat)
    ensures Place(s, p, e, stride, step) + Times(n, step) == Place(s, p + n, e, stride, step)
  {
    Distributes(p, n, step);
  }

  lemma {:induction false} BlockOfByte(bytes: seq<byte>, r: nat, q: nat, c: nat, v: byte, y: nat, p: nat, e: nat,
                                       stride: nat, step: nat, divisor: nat, d: nat)
    requires c < step && e < step && Times(q + 1, step) <= stride && Times(Times(p, divisor) + divisor, step) <= stride
    requires OneByte(bytes, Place(r, q, c, stride, step), v)
    ensures BlockSum(bytes, stride, step, y, p, e, divisor, d) ==
      if Times(y, divisor) <= r < Times(y, divisor) + d && Times(p, divisor) <= q < Times(p, divisor) + divisor
        && c == e
      then v else 0
  {
    hide Times;
    if d > 0 {
      BlockOfByte(bytes, r, q, c, v, y, p, e, stride, step, divisor, d - 1);
      PixelsOfByte(bytes, r, q, c, v, Times(y, divisor) + d - 1, Times(p, divisor), e, stride, step, divisor);
    }
  }

  lemma {:induction false} InBlock(y: nat, r: nat, divisor: nat)
    requires divisor > 0
    ensures Times(y, divisor) <= r < Times(y, divisor) + divisor <==> r / divisor == y
  {
    Quotient(r, divisor);
    if r / divisor == y {
      DivisionIs(r, divisor, y, r % divisor);
    } else if Times(y, divisor) <= r < Times(y, divisor) + divisor {
      DivisionIs(r, divisor, y, r - Times(y, divisor));
    }
  }

  lemma {:induction false} OwnBlock(bytes: seq<byte>, r: nat, q: nat, c: nat, v: byte, y: nat, p: nat, e: nat,
                                    stride: nat, step: nat, divisor: nat, count: nat)
    requires divisor > 0 && c < step && e < step && p < count
    requires Times(q + 1, step) <= stride && Times(Times(count, divisor), step) <= stride
    requires OneByte(bytes, Place(r, q, c, stride, step), v)
    ensures BlockSum(bytes, stride, step, y, p, e, divisor, divisor) ==
      if r / divisor == y && q / divisor == p && c == e then v else 0
  {
    hide Times, Place, BlockSum, OneByte;
    Monotone(p + 1, count, divisor);
    Distributes(p, 1, divisor);
    Monotone(Times(p, divisor) + divisor, Times(count, divisor), step);
    BlockOfByte(bytes, r, q, c, v, y, p, e, stride, step, divisor, divisor);
    InBlock(y, r, divisor);
    InBlock(p, q, divisor);
  }

  lemma {:induction false} ExactDivides(divisor: nat, count: nat)
    requires Exact(divisor, count)
    ensures divisor > 0 && Square(divisor) > 0
  {}

  lemma {:induction false} NothingDivided(d: nat)
    requires d > 0
    ensures 0 / d == 0
  {}

  /** Where a source byte goes: to its channel of the one output pixel whose block it lies in, as its share of the
      block's pixels; everything else stays dark. */
  lemma {:induction false} OneByteHalved(bytes: seq<byte>, r: nat, q: nat, c: nat, v: byte, y: nat, p: nat, e: nat,
                                         stride: nat, step: nat, divisor: nat, count: nat)
    requires Exact(divisor, count) && c < step && e < step && p < count
    requires Times(q + 1, step) <= stride && Times(Times(count, divisor), step) <= stride
    requires OneByte(bytes, Place(r, q, c, stride, step), v)
    ensures StoredSquare(divisor) > 0 && Square(divisor) > 0
    ensures HalvedByte<nat>(SixteenBit(divisor), bytes, stride, step, y, Times(p, step) + e, divisor, count) ==
      if r / divisor == y && q / divisor == p && c == e then v / Square(divisor) else 0
  {
    hide *;
    ExactDivides(divisor, count);
    ExactMean(bytes, stride, step, y, Times(p, step) + e, divisor, count);
    PlaceOf(p, e, step);
    OwnBlock(bytes, r, q, c, v, y, p, e, stride, step, divisor, count);
    NothingDivided(Square(divisor));
  }

  // ---------- bitmaps of one colour ----------

  /** The bytes of a bitmap all of one value, wherever a block reads. */
  ghost predicate OneValue(bytes: seq<byte>, v: byte) {
    forall i :: 0 <= i < |bytes| ==> bytes[i] == v
  }

  lemma {:induction false} GatherOneValue(acc: nat, bytes: seq<byte>, at: nat, step: nat, n: nat, v: byte)
    requires OneValue(bytes, v) && (n > 0 ==> at + Times(n - 1, step) < |bytes|)
    ensures Gather<nat>(Whole(), acc, bytes, at, step, n) == acc + Times(n, v)
  {
    if n > 0 {
      if n > 1 { Monotone(n - 2, n - 1, step); }
      GatherOneValue(acc, bytes, at, step, n - 1, v);
      Distributes(n - 1, 1, v);
    }
  }

  lemma {:induction false} RowsOneValue(bytes: seq<byte>, stride: nat, step: nat, y: nat, b: nat, divisor: nat,
                                        count: nat, rows: nat, d: nat, v: byte)
    requires step > 0 && OneValue(bytes, v) && y < rows && b < Times(count, step) && d <= divisor
    requires Holds(|bytes|, stride, step, count, rows, divisor)
    ensures GatherRows<nat>(Whole(), bytes, stride, step, y, b, divisor, count, d) == Times(d, Times(Taps(divisor), v))
  {
    hide Times, SourceByte, Holds;
    Distributes(0, 0, Times(Taps(divisor), v));
    if d > 0 {
      RowsOneValue(bytes, stride, step, y, b, divisor, count, rows, d - 1, v);
      RowFits(|bytes|, stride, step, count, rows, divisor, y, d - 1);
      if Taps(divisor) > 0 { ByteInRow(b, step, divisor, count, Taps(divisor) - 1); }
      GatherOneValue(GatherRows<nat>(Whole(), bytes, stride, step, y, b, divisor, count, d - 1), bytes,
                     Times(Times(y, divisor) + d - 1, stride) + SourceByte(b, step, divisor, count), step,
                       Taps(divisor), v);
      Distributes(d - 1, 1, Times(Taps(divisor), v));
    }
  }

  lemma {:induction false} BlockOneValue(bytes: seq<byte>, stride: nat, step: nat, y: nat, p: nat, c: nat,
                                         divisor: nat, count: nat, rows: nat, d: nat, v: byte)
    requires step > 0 && OneValue(bytes, v) && y < rows && p < count && c < step && d <= divisor
    requires Holds(|bytes|, stride, step, count, rows, divisor)
    ensures BlockSum(bytes, stride, step, y, p, c, divisor, d) == Times(d, Times(divisor, v))
  {
    hide Times, Holds;
    Distributes(0, 0, Times(divisor, v));
    if d > 0 {
      BlockOneValue(bytes, stride, step, y, p, c, divisor, count, rows, d - 1, v);
      RowFits(|bytes|, stride, step, count, rows, divisor, y, d - 1);
      BlockInRow(p, c, step, divisor, count);
      var at := Times(Times(y, divisor) + d - 1, stride) + Times(Times(p, divisor), step) + c;
      GatherOneValue(0, bytes, at, step, divisor, v);
      GatherIsSum(0, bytes, at, step, divisor);
      Distributes(d - 1, 1, Times(divisor, v));
    }
  }

  lemma {:induction false} BlockInRow(p: nat, c: nat, step: nat, divisor: nat, count: nat)
    requires p < count && c < step && divisor > 0
    ensures Times(Times(p, divisor), step) + c + Times(divisor - 1, step) < Times(Times(count, divisor), step)
  {
    Monotone(p + 1, count, divisor);
    Distributes(p, 1, divisor);
    Monotone(Times(p, divisor) + divisor, Times(count, divisor), step);
    Distributes(Times(p, divisor), divisor, step);
    Distributes(divisor - 1, 1, step);
  }

  lemma {:induction false} SameFactor(n: nat, v: nat)
    ensures Times(n, Times(n, v)) == v * Square(n) == Times(v, Square(n))
  {
    assert n * (n * v) == v * (n * n);
  }

  lemma {:induction false} SquareDivides(v: nat, square: nat)
    requires square > 0
    ensures v * square / square == v
  {
    DivisionIs(v * square, square, v, 0);
  }

  /** For divisors 2 to 16 a bitmap of one value keeps it, paired or not. */
  lemma {:induction false} OneValueStays(bytes: seq<byte>, stride: nat, step: nat, y: nat, b: nat, divisor: nat,
                                         count: nat, rows: nat, v: byte)
    requires step > 0 && 2 <= divisor <= 16 && OneValue(bytes, v) && y < rows && b < Times(count, step)
    requires Holds(|bytes|, stride, step, count, rows, divisor)
    ensures StoredSquare(divisor) > 0
    ensures HalvedByte<nat>(SixteenBit(divisor), bytes, stride, step, y, b, divisor, count) == v
  {
    hide *;
    TapsAre(divisor);
    StoredWhole(divisor);
    ByteIs(bytes, stride, step, y, b, divisor, count);
    RowsOneValue(bytes, stride, step, y, b, divisor, count, rows, divisor, v);
    OneValueQuotient(divisor, v);
  }

  lemma {:induction false} OneValueQuotient(divisor: nat, v: byte)
    requires 2 <= divisor <= 16 && StoredSquare(divisor) > 0
    ensures SixteenBitQuotient(Times(divisor, Times(divisor, v)), StoredSquare(divisor)) % 256 == v
  {
    hide *;
    StoredWhole(divisor);
    SameFactor(divisor, v);
    SmallSquare(divisor);
    NoWrap(v, Square(divisor));
    MeanOfValue(v, Square(divisor));
  }

  lemma {:induction false} MeanOfValue(v: byte, square: nat)
    requires square > 0 && v * square <= 255 * square <= 65280
    ensures SixteenBitQuotient(v * square, square) % 256 == v
  {
    hide SixteenBitQuotient;
    SquareDivides(v, square);
    MeanOfBytes(v * square, square);
  }

  lemma {:induction false} NoWrap(v: byte, square: nat)
    requires 255 * square <= 65280
    ensures v * square <= 255 * square
  {
    assert (255 - v) * square >= 0;
  }

  // ---------- where the bytes are not means ----------

  lemma {:induction false} Wraps(square: nat)
    requires square > 257
    ensures SixteenBitQuotient(255 * square, square) % 256 < 255
  {
    hide SixteenBitQuotient;
    WrapsBelow(square);
    StaysBelow(SixteenBitQuotient(255 * square, square));
  }

  lemma {:induction false} StaysBelow(q: nat)
    requires q < 255
    ensures q % 256 < 255
  {}

  lemma {:induction false} WrapsBelow(square: nat)
    requires square > 257
    ensures SixteenBitQuotient(255 * square, square) < 255
  {
    var left := 255 * square % 65536;
    assert left < 255 * square;
    var q := left / square;
    assert q * square <= left;
    Multiples(q - 255, square);
    assert (q - 255) * square == q * square - 255 * square;
  }

  lemma {:induction false} LargeSquare(divisor: nat)
    requires divisor > 16
    ensures Square(divisor) >= 289
    ensures divisor > 255 ==> Square(divisor) > 65535
  {
    assert divisor * divisor >= 17 * 17;
    if divisor > 255 { assert divisor * divisor >= 256 * 256; }
  }

  /** The stored square stays small only for small divisors and some beyond 255. */
  lemma {:induction false} SmallStored(divisor: nat)
    requires divisor > 16 && StoredSquare(divisor) <= 257
    ensures Square(divisor) > 65535
  {
    hide StoredSquare, Square;
    LargeSquare(divisor);
    StoredIsSquare(divisor);
  }

  /** A bitmap whose halving is not the mean: one bright pixel that no pair takes; two bright pixels where the stored
      square is small; else all white. */
  function Telling(divisor: nat, step: nat, length: nat): (bytes: seq<byte>)
    ensures |bytes| == length
  {
    if divisor == 2 then seq<byte>(length, i => if i == 3 * step then 255 else 0)
    else if divisor > 16 && StoredSquare(divisor) <= 257 then
      seq<byte>(length, i => if i == 0 || i == step then 255 else 0)
    else seq<byte>(length, i => 255)
  }

  lemma {:induction false} WhiteTells(bytes: seq<byte>, stride: nat, step: nat, divisor: nat, count: nat)
    requires step > 0 && count > 0 && OneValue(bytes, 255)
    requires divisor == 1 || (divisor > 16 && StoredSquare(divisor) > 257)
    requires Holds(|bytes|, stride, step, count, 1, divisor)
    ensures StoredSquare(divisor) > 0
    ensures HalvedByte<nat>(SixteenBit(divisor), bytes, stride, step, 0, 0, divisor, count) < 255
    ensures BlockSum(bytes, stride, step, 0, 0, 0, divisor, divisor) / Square(divisor) == 255
  {
    hide Times, Holds, Square, StoredSquare, HalvedByte, GatherRows, BlockSum;
    if divisor == 1 { StoredWhole(divisor); }
    Monotone(1, count, step);
    Distributes(1, 0, step);
    ByteIs(bytes, stride, step, 0, 0, divisor, count);
    RowsOneValue(bytes, stride, step, 0, 0, divisor, count, 1, divisor, 255);
    BlockOneValue(bytes, stride, step, 0, 0, 0, divisor, count, 1, divisor, 255);
    SameFactor(divisor, 255);
    SquareDivides(255, Square(divisor));
    WhiteByte(divisor);
  }

  lemma {:induction false} WhiteByte(divisor: nat)
    requires divisor == 1 || (divisor > 16 && StoredSquare(divisor) > 257)
    ensures StoredSquare(divisor) > 0
    ensures SixteenBitQuotient(Times(divisor, Times(Taps(divisor), 255)), StoredSquare(divisor)) % 256 < 255
  {
    hide *;
    TapsAre(divisor);
    if divisor == 1 {
      StoredWhole(divisor);
      NothingLeft(StoredSquare(1));
    } else {
      SameFactor(divisor, 255);
      Wraps(StoredSquare(divisor));
      SameQuotient(divisor);
    }
  }

  /** The sum of a white block leaves in sixteen bits what 255 times the stored square does. */
  lemma {:induction false} SameQuotient(divisor: nat)
    requires StoredSquare(divisor) > 0
    ensures SixteenBitQuotient(255 * Square(divisor), StoredSquare(divisor)) ==
            SixteenBitQuotient(255 * StoredSquare(divisor), StoredSquare(divisor))
  {
    hide Square;
    WrapsAlike(Square(divisor));
  }

  lemma {:induction false} WrapsAlike(x: nat)
    ensures 255 * x % 65536 == 255 * (x % 65536) % 65536
  {
    var k, r := x / 65536, x % 65536;
    var q := 255 * r / 65536;
    DivisionIs(255 * x, 65536, 255 * k + q, 255 * r % 65536);
  }

  lemma {:induction false} NothingLeft(square: nat)
    requires square > 0
    ensures SixteenBitQuotient(Times(1, Times(0, 255)), square) % 256 == 0
  {}

  /** Halving to an even number of pixels: pixel p is the floor of the mean of two columns of two rows, for even p
      its own block, for odd p the block one pixel further left. */
  lemma {:induction false} PairedMean(bytes: seq<byte>, stride: nat, step: nat, y: nat, b: nat, count: nat)
    requires step > 0 && count % 2 == 0
    ensures StoredSquare(2) > 0
    ensures HalvedByte<nat>(SixteenBit(2), bytes, stride, step, y, b, 2, count) ==
            PairSum(bytes, stride, step, y, b / step, b % step) / 4
  {
    hide *;
    StoredWhole(2);
    ByteIs(bytes, stride, step, y, b, 2, count);
    TwoRows(bytes, stride, step, y, b, count);
    PairBound(bytes, stride, step, y, b / step, b % step);
    FourIs();
    Fourth(PairSum(bytes, stride, step, y, b / step, b % step), StoredSquare(2));
  }

  lemma {:induction false} Fourth(sum: nat, square: nat)
    requires sum <= 1020 && square == 4
    ensures SixteenBitQuotient(sum, square) % 256 == sum / 4
  {}

  lemma {:induction false} FourIs()
    ensures Square(2) == 4
  {}

  function PairSum(bytes: seq<byte>, stride: nat, step: nat, y: nat, p: nat, c: nat): nat {
    var column := Times(p * 2 - p % 2, step) + c;
    PixelSum(bytes, Times(2 * y, stride) + column, step, 2)
      + PixelSum(bytes, Times(2 * y + 1, stride) + column, step, 2)
  }

  lemma {:induction false} PairBound(bytes: seq<byte>, stride: nat, step: nat, y: nat, p: nat, c: nat)
    ensures PairSum(bytes, stride, step, y, p, c) <= 1020
  {
    hide Times;
    var column := Times(p * 2 - p % 2, step) + c;
    TwoBytes(bytes, Times(2 * y, stride) + column, step);
    TwoBytes(bytes, Times(2 * y + 1, stride) + column, step);
  }

  lemma {:induction false} TwoBytes(bytes: seq<byte>, at: nat, step: nat)
    ensures PixelSum(bytes, at, step, 2) == ByteAt(bytes, at) + ByteAt(bytes, at + step) <= 510
  {
    assert PixelSum(bytes, at, step, 1) == ByteAt(bytes, at);
  }

  lemma {:induction false} TwoRows(bytes: seq<byte>, stride: nat, step: nat, y: nat, b: nat, count: nat)
    requires step > 0 && count % 2 == 0
    ensures GatherRows<nat>(Whole(), bytes, stride, step, y, b, 2, count, 2) ==
      PairSum(bytes, stride, step, y, b / step, b % step)
  {
    hide Gather, PixelSum;
    var p := b / step;
    assert Times(y, 2) == 2 * y && FirstPixel(p, 2, count) == p * 2 - p % 2;
    var column := Times(p * 2 - p % 2, step) + b % step;
    assert GatherRows<nat>(Whole(), bytes, stride, step, y, b, 2, count, 0) == 0;
    GatherIsSum(0, bytes, Times(2 * y, stride) + column, step, 2);
    GatherIsSum(PixelSum(bytes, Times(2 * y, stride) + column, step, 2), bytes, Times(2 * y + 1, stride) + column,
                step, 2);
  }

  /** The first odd pixel of a paired row misses the last column of its block. */
  lemma {:induction false} PairTells(bytes: seq<byte>, stride: nat, step: nat, count: nat)
    requires step > 0 && count > 0 && count % 2 == 0 && Holds(|bytes|, stride, step, count, 1, 2)
    requires forall i :: 0 <= i < |bytes| ==> bytes[i] == if i == 3 * step then 255 else 0
    ensures step < Times(count, step) && StoredSquare(2) > 0
    ensures HalvedByte<nat>(SixteenBit(2), bytes, stride, step, 0, step, 2, count) == 0
    ensures BlockSum(bytes, stride, step, 0, 1, 0, 2, 2) / Square(2) == 63
  {
    FewSteps(count, step, stride);
    PairedMean(bytes, stride, step, 0, step, count);
    assert step / step == 1 && step % step == 0;
    PairSumIs(bytes, stride, step);
    BlockSumIs(bytes, stride, step, count);
    FourIs();
  }

  lemma {:induction false} FewSteps(count: nat, step: nat, stride: nat)
    requires step > 0 && count >= 2 && Times(Times(count, 2), step) <= stride
    ensures step < Times(count, step) && 4 * step <= stride
  {
    Monotone(2, count, step);
    Monotone(4, Times(count, 2), step);
  }

  lemma {:induction false} PairSumIs(bytes: seq<byte>, stride: nat, step: nat)
    requires step > 0 && 4 * step <= stride
    requires forall i :: 0 <= i < |bytes| ==> bytes[i] == if i == 3 * step then 255 else 0
    ensures PairSum(bytes, stride, step, 0, 1, 0) == 0
  {
    TwoBytes(bytes, step, step);
    TwoBytes(bytes, stride + step, step);
  }

  lemma {:induction false} BlockSumIs(bytes: seq<byte>, stride: nat, step: nat, count: nat)
    requires step > 0 && 4 * step <= stride && count >= 2 && Holds(|bytes|, stride, step, count, 1, 2)
    requires forall i :: 0 <= i < |bytes| ==> bytes[i] == if i == 3 * step then 255 else 0
    ensures BlockSum(bytes, stride, step, 0, 1, 0, 2, 2) == 255
  {
    hide PixelSum;
    TwoBytes(bytes, 2 * step, step);
    TwoBytes(bytes, stride + 2 * step, step);
    assert 3 * step < |bytes|;
    assert BlockSum(bytes, stride, step, 0, 1, 0, 2, 0) == 0;
    assert BlockSum(bytes, stride, step, 0, 1, 0, 2, 1) == PixelSum(bytes, 2 * step, step, 2);
  }

  // ---------- two bright pixels ----------

  ghost predicate TwoBright(bytes: seq<byte>, step: nat) {
    forall i :: 0 <= i < |bytes| ==> bytes[i] == if i == 0 || i == step then 255 else 0
  }

  lemma {:induction false} DarkPixels(bytes: seq<byte>, at: nat, step: nat, n: nat)
    requires TwoBright(bytes, step) && at > step
    ensures PixelSum(bytes, at, step, n) == 0
  {
    hide Times;
    if n > 0 { DarkPixels(bytes, at, step, n - 1); }
  }

  lemma {:induction false} BrightPixels(bytes: seq<byte>, step: nat, n: nat)
    requires TwoBright(bytes, step) && n >= 2 && 0 < step < |bytes|
    ensures PixelSum(bytes, 0, step, n) == 510
  {
    if n == 2 {
      TwoBytes(bytes, 0, step);
    } else {
      BrightPixels(bytes, step, n - 1);
      hide Times;
      Monotone(2, n - 1, step);
      Distributes(1, 1, step);
    }
  }

  lemma {:induction false} BrightBlock(bytes: seq<byte>, stride: nat, step: nat, divisor: nat, d: nat)
    requires TwoBright(bytes, step) && divisor >= 2 && 0 < step < |bytes| && step < stride && d > 0
    ensures BlockSum(bytes, stride, step, 0, 0, 0, divisor, d) == 510
  {
    hide PixelSum, Times;
    Distributes(0, 0, divisor);
    Distributes(0, 0, step);
    Distributes(0, 0, stride);
    if d == 1 {
      BrightPixels(bytes, step, divisor);
      assert BlockSum(bytes, stride, step, 0, 0, 0, divisor, 0) == 0;
    } else {
      BrightBlock(bytes, stride, step, divisor, d - 1);
      Monotone(1, d - 1, stride);
      DarkPixels(bytes, Times(d - 1, stride), step, divisor);
    }
  }

  lemma {:induction false} BrightTells(bytes: seq<byte>, stride: nat, step: nat, divisor: nat, count: nat)
    requires step > 0 && count > 0 && divisor > 16 && 0 < StoredSquare(divisor) <= 257 && TwoBright(bytes, step)
    requires Holds(|bytes|, stride, step, count, 1, divisor)
    ensures HalvedByte<nat>(SixteenBit(divisor), bytes, stride, step, 0, 0, divisor, count) != 0
    ensures BlockSum(bytes, stride, step, 0, 0, 0, divisor, divisor) / Square(divisor) == 0
  {
    hide Square, StoredSquare, HalvedByte, GatherRows, BlockSum;
    StepInRow(|bytes|, stride, step, count, divisor);
    ByteIs(bytes, stride, step, 0, 0, divisor, count);
    RowsAreBlock(bytes, stride, step, 0, 0, divisor, count, divisor);
    BrightBlock(bytes, stride, step, divisor, divisor);
    SmallStored(divisor);
    BrightQuotient(StoredSquare(divisor));
  }

  lemma {:induction false} StepInRow(length: nat, stride: nat, step: nat, count: nat, divisor: nat)
    requires step > 0 && count > 0 && divisor >= 2 && Holds(length, stride, step, count, 1, divisor)
    ensures step < stride && step < length
  {
    hide Times;
    Monotone(1, count, divisor);
    Distributes(1, 0, divisor);
    Monotone(2, Times(count, divisor), step);
    Distributes(1, 1, step);
    Distributes(divisor - 1, 0, stride);
  }

  lemma {:induction false} BrightQuotient(square: nat)
    requires 0 < square <= 257
    ensures SixteenBitQuotient(510, square) % 256 != 0
  {
    var q := 510 / square;
    assert q * square <= 510 < q * square + square;
    if q >= 256 {
      Multiples(square - 1, q);
      assert (square - 1) * q == square * q - q;
    }
  }

  /** For every other divisor some bitmap of any size gives a byte that is not the mean of its block. */
  lemma {:induction false} OnlyExactMean(stride: nat, step: nat, divisor: nat, count: nat, length: nat)
    requires step > 0 && count > 0 && StoredSquare(divisor) > 0 && !Exact(divisor, count)
    requires Holds(length, stride, step, count, 1, divisor)
    ensures var bytes, b := Telling(divisor, step, length), if divisor == 2 then step else 0;
            && b < Times(count, step)
            && HalvedByte<nat>(SixteenBit(divisor), bytes, stride, step, 0, b, divisor, count) !=
               BlockSum(bytes, stride, step, 0, b / step, b % step, divisor, divisor) / Square(divisor)
  {
    hide Times, Holds, Square, StoredSquare, HalvedByte, BlockSum;
    Monotone(1, count, step);
    Distributes(1, 0, step);
    if divisor == 2 {
      PairTells(Telling(divisor, step, length), stride, step, count);
    } else if divisor > 16 && StoredSquare(divisor) <= 257 {
      BrightTells(Telling(divisor, step, length), stride, step, divisor, count);
    } else {
      NotNothing(divisor);
      WhiteTells(Telling(divisor, step, length), stride, step, divisor, count);
    }
  }

  lemma {:induction false} NotNothing(divisor: nat)
    requires StoredSquare(divisor) > 0
    ensures divisor > 0
  {}
}
