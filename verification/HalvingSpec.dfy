// Shrinking a bitmap by a whole divisor: what each byte of the result is, for
// any arithmetic the row buffer may use.

module HalvingSpec {
  import opened Memory

  /** What the row buffer holds and how bytes get in and out of it. */
  datatype Arithmetic<!A> = Arithmetic(zero: A, plus: (A, A) -> A, lift: byte -> A, lower: A -> byte)

  ghost predicate Lawful<A(!new)>(ar: Arithmetic<A>) {
    forall x: A, y: A, z: A :: ar.plus(ar.plus(x, y), z) == ar.plus(x, ar.plus(y, z))
  }

  /** How many pixels of a source row go into one output pixel: all of a block's but for divisor 1, which takes none. */
  function Taps(divisor: nat): nat {
    if divisor <= 1 then 0 else divisor
  }

  lemma {:induction false} TapsAre(divisor: nat)
    ensures Taps(divisor) == if divisor <= 1 then 0 else divisor
  {}

  /** The first source pixel of output pixel p; halving to an even number of pixels takes them in pairs. */
  function FirstPixel(p: nat, divisor: nat, count: nat): nat {
    if divisor == 2 && count % 2 == 0 then p / 2 * 4 + p % 2 else Times(p, divisor)
  }

  /** Where in its source rows byte b of an output row starts. */
  function SourceByte(b: nat, step: nat, divisor: nat, count: nat): nat
    requires step > 0
  {
    Times(FirstPixel(b / step, divisor, count), step) + b % step
  }

  function ByteAt(bytes: seq<byte>, i: nat): byte {
    if i < |bytes| then bytes[i] else 0
  }

  /** acc plus n bytes, one pixel apart. */
  function Gather<A>(ar: Arithmetic<A>, acc: A, bytes: seq<byte>, at: nat, step: nat, n: nat): A {
    if n == 0 then acc
    else ar.plus(Gather(ar, acc, bytes, at, step, n - 1), ar.lift(ByteAt(bytes, at + Times(n - 1, step))))
  }

  /** The sum of the first d rows of the block behind byte b of output row y. */
  function GatherRows<A>(ar: Arithmetic<A>, bytes: seq<byte>, stride: nat, step: nat, y: nat, b: nat, divisor: nat,
                         count: nat, d: nat): A
    requires step > 0
  {
    if d == 0 then ar.zero
    else Gather(ar, GatherRows(ar, bytes, stride, step, y, b, divisor, count, d - 1), bytes,
                Times(Times(y, divisor) + d - 1, stride) + SourceByte(b, step, divisor, count), step, Taps(divisor))
  }

  /** Byte b of output row y. */
  function HalvedByte<A>(ar: Arithmetic<A>, bytes: seq<byte>, stride: nat, step: nat, y: nat, b: nat, divisor: nat,
                         count: nat): byte
    requires step > 0
  {
    ar.lower(GatherRows(ar, bytes, stride, step, y, b, divisor, count, divisor))
  }

  /** Changes in the first bytes of a source do not reach a row behind them. */
  lemma {:induction false} GatherBehind<A>(ar: Arithmetic<A>, acc: A, s: seq<byte>, t: seq<byte>, at: nat, step: nat,
                                           n: nat)
    requires |s| == |t| && forall j :: at <= j < |s| ==> s[j] == t[j]
    ensures Gather(ar, acc, s, at, step, n) == Gather(ar, acc, t, at, step, n)
  {
    if n > 0 { GatherBehind(ar, acc, s, t, at, step, n - 1); }
  }

  // ---------- the picture the source must hold ----------

  /** A picture of count * divisor by rows * divisor pixels fits this many bytes at this stride. */
  predicate Holds(length: nat, stride: nat, step: nat, count: nat, rows: nat, divisor: nat) {
    var rowBytes := Times(Times(count, divisor), step);
    rowBytes <= stride && (Times(rows, divisor) > 0 ==> Times(Times(rows, divisor) - 1, stride) + rowBytes <= length)
  }

  lemma {:induction false} Split(b: nat, step: nat, count: nat)
    requires step > 0 && b < Times(count, step)
    ensures b / step < count && b == Times(b / step, step) + b % step && b % step < step
  {
    if b / step >= count { Monotone(count, b / step, step); }
  }

  /** The pixels an output pixel takes lie in the picture. */
  lemma {:induction false} PixelsInRow(p: nat, divisor: nat, count: nat)
    requires p < count
    ensures FirstPixel(p, divisor, count) + Taps(divisor) <= Times(count, divisor)
  {
    if divisor == 2 && count % 2 == 0 {
      assert p / 2 <= count / 2 - 1;
    } else {
      Monotone(p + 1, count, divisor);
      Distributes(p, 1, divisor);
    }
  }

  /** The bytes of a block lie in its rows. */
  lemma {:induction false} ByteInRow(b: nat, step: nat, divisor: nat, count: nat, k: nat)
    requires step > 0 && b < Times(count, step) && k < Taps(divisor)
    ensures SourceByte(b, step, divisor, count) + Times(k, step) < Times(Times(count, divisor), step)
  {
    hide FirstPixel, Taps, Times;
    Split(b, step, count);
    var first := FirstPixel(b / step, divisor, count);
    PixelsInRow(b / step, divisor, count);
    Monotone(first + k + 1, Times(count, divisor), step);
    Distributes(first, k + 1, step);
    Distributes(k, 1, step);
  }

  lemma {:induction false} RowExists(y: nat, d: nat, rows: nat, divisor: nat)
    requires y < rows && d < divisor
    ensures Times(y, divisor) + d < Times(rows, divisor)
  {
    Monotone(y + 1, rows, divisor);
    Distributes(y, 1, divisor);
  }

  /** A row of a block lies in memory. */
  lemma {:induction false} RowFits(length: nat, stride: nat, step: nat, count: nat, rows: nat, divisor: nat, y: nat,
                                   d: nat)
    requires Holds(length, stride, step, count, rows, divisor) && y < rows && d < divisor
    ensures Times(Times(y, divisor) + d, stride) + Times(Times(count, divisor), step) <= length
  {
    RowExists(y, d, rows, divisor);
    Monotone(Times(y, divisor) + d, Times(rows, divisor) - 1, stride);
  }

  // ---------- the whole memory afterwards ----------

  /** Index j of memory belongs to the picture of this many rows. */
  predicate InPicture(j: nat, stride: nat, rowBytes: nat, rows: nat) {
    stride > 0 && j / stride < rows && j % stride < rowBytes
  }

  /** The memory after this many rows were written, the source being what it was before. */
  function HalvedPixels<A>(ar: Arithmetic<A>, src: seq<byte>, dst: seq<byte>, stride: nat, step: nat, divisor: nat,
                           count: nat, rows: nat, toStride: nat): (r: seq<byte>)
    requires step > 0
    ensures |r| == |dst|
  {
    seq(|dst|, j requires 0 <= j < |dst| =>
      if InPicture(j, toStride, Times(count, step), rows)
        then HalvedByte(ar, src, stride, step, j / toStride, j % toStride, divisor, count)
      else dst[j])
  }

  /** Whatever memory the result goes to and whatever its stride, it is the same picture: halving in place
      gives what halving into another bitmap gives. */
  lemma {:induction false} SamePictureAnywhere<A>(ar: Arithmetic<A>, src: seq<byte>, dst: seq<byte>, stride: nat,
                                                  step: nat, divisor: nat, count: nat, rows: nat, toStride: nat,
                                                  other: seq<byte>, otherStride: nat, y: nat, b: nat)
    requires step > 0 && y < rows && b < Times(count, step)
    requires Times(count, step) <= toStride && Times(count, step) <= otherStride
    requires Times(y, toStride) + b < |dst| && Times(y, otherStride) + b < |other|
    ensures HalvedPixels(ar, src, dst, stride, step, divisor, count, rows, toStride)[Times(y, toStride) + b] ==
            HalvedPixels(ar, src, other, stride, step, divisor, count, rows, otherStride)[Times(y, otherStride) + b]
  {
    PlaceOf(y, b, toStride);
    PlaceOf(y, b, otherStride);
  }
}
