// Shrinking a bitmap by a whole divisor, into another bitmap or into its own
// memory, through a buffer holding one output row.

module Halving {
  import opened Memory
  import opened HalvingSpec
  import opened BitmapTransform

  /** A bitmap as bytes; its first row starts at the first byte, rows are a stride apart. */
  class ByteBitmap {
    var w: nat
    var h: nat
    var stride: nat
    const fmt: Format
    const pixels: array<byte>

    constructor (w: nat, h: nat, stride: nat, fmt: Format, pixels: array<byte>)
      ensures this.w == w && this.h == h && this.stride == stride && this.fmt == fmt && this.pixels == pixels
    {
      this.w, this.h, this.stride, this.fmt, this.pixels := w, h, stride, fmt, pixels;
    }
  }

  /** The first bytes of the row buffer have taken in their part of a source row. */
  ghost predicate RowAdded<A(!new)>(ar: Arithmetic<A>, before: seq<A>, after: seq<A>, bytes: seq<byte>, fromAt: nat,
                                    divisor: nat, step: nat, count: nat, upTo: nat)
    requires step > 0
  {
    |after| == |before| && forall b: nat :: b < |after| ==>
      after[b] == if b < upTo
        then Gather(ar, before[b], bytes, fromAt + SourceByte(b, step, divisor, count), step, Taps(divisor))
                  else before[b]
  }

  /** n neighbouring bytes of the row buffer have taken in this many taps each. */
  ghost predicate GroupAdded<A(!new)>(ar: Arithmetic<A>, before: seq<A>, after: seq<A>, bytes: seq<byte>, fromB: nat,
                                      toB: nat, n: nat, step: nat, taps: nat)
  {
    |after| == |before| && forall b: nat :: b < |after| ==>
      after[b] == if toB <= b < toB + n then Gather(ar, before[b], bytes, fromB + (b - toB), step, taps) else before[b]
  }

  /** Adding a few taps at once is adding them one by one. */
  lemma {:induction false} FewTaps<A(!new)>(ar: Arithmetic<A>, acc: A, bytes: seq<byte>, at: nat, step: nat)
    requires Lawful(ar)
    ensures var x0, x1 := ar.lift(ByteAt(bytes, at)), ar.lift(ByteAt(bytes, at + step));
            var x2, x3 := ar.lift(ByteAt(bytes, at + 2 * step)), ar.lift(ByteAt(bytes, at + 3 * step));
            && Gather(ar, acc, bytes, at, step, 2) == ar.plus(acc, ar.plus(x0, x1))
            && Gather(ar, acc, bytes, at, step, 3) == ar.plus(acc, ar.plus(ar.plus(x0, x1), x2))
            && Gather(ar, acc, bytes, at, step, 4) == ar.plus(acc, ar.plus(ar.plus(ar.plus(x0, x1), x2), x3))
  {
    hide *;
    TapByTap(ar, acc, bytes, at, step, 1);
    TapByTap(ar, acc, bytes, at, step, 2);
    TapByTap(ar, acc, bytes, at, step, 3);
    TapByTap(ar, acc, bytes, at, step, 4);
    var x0, x1 := ar.lift(ByteAt(bytes, at)), ar.lift(ByteAt(bytes, at + step));
    var x2, x3 := ar.lift(ByteAt(bytes, at + 2 * step)), ar.lift(ByteAt(bytes, at + 3 * step));
    Regroup(ar, acc, x0, x1);
    Regroup(ar, acc, ar.plus(x0, x1), x2);
    Regroup(ar, acc, ar.plus(ar.plus(x0, x1), x2), x3);
  }

  lemma {:induction false} Regroup<A(!new)>(ar: Arithmetic<A>, x: A, y: A, z: A)
    requires Lawful(ar)
    ensures ar.plus(ar.plus(x, y), z) == ar.plus(x, ar.plus(y, z))
  {}

  lemma {:induction false} TapByTap<A(!new)>(ar: Arithmetic<A>, acc: A, bytes: seq<byte>, at: nat, step: nat, n: nat)
    requires 1 <= n
    ensures (n - 1) * step >= 0
    ensures Gather(ar, acc, bytes, at, step, n) ==
      ar.plus(Gather(ar, acc, bytes, at, step, n - 1), ar.lift(ByteAt(bytes, at + (n - 1) * step)))
    ensures Gather(ar, acc, bytes, at, step, 0) == acc
  {}

  /** Two, three or four taps added up. */
  method SumTaps<A(!new)>(ar: Arithmetic<A>, from: array<byte>, at: nat, step: nat, taps: nat, ghost acc: A)
    returns (sum: A)
    requires Lawful(ar) && 2 <= taps <= 4 && at + (taps - 1) * step < from.Length
    ensures ar.plus(acc, sum) == Gather(ar, acc, from[..], at, step, taps)
  {
    hide Gather, Lawful;
    FewTaps(ar, acc, from[..], at, step);
    sum := ar.plus(ar.lift(from[at]), ar.lift(from[at + step]));
    if taps >= 3 { sum := ar.plus(sum, ar.lift(from[at + 2 * step])); }
    if taps == 4 { sum := ar.plus(sum, ar.lift(from[at + 3 * step])); }
  }

  /** Two, three or four taps for each of n bytes. */
  method AddGroup<A(!new)>(ar: Arithmetic<A>, from: array<byte>, fromB: nat, to: array<A>, toB: nat, n: nat, step: nat,
                           taps: nat)
    requires Lawful(ar) && from as object != to as object && 2 <= taps <= 4
    requires toB + n <= to.Length && (n > 0 ==> fromB + n - 1 + (taps - 1) * step < from.Length)
    modifies to
    ensures GroupAdded(ar, old(to[..]), to[..], from[..], fromB, toB, n, step, taps)
  {
    hide Gather, Lawful;
    for i: nat := 0 to n
      invariant GroupAdded(ar, old(to[..]), to[..], from[..], fromB, toB, i, step, taps)
    {
      var sum := SumTaps(ar, from, fromB + i, step, taps, to[toB + i]);
      to[toB + i] := ar.plus(to[toB + i], sum);
    }
  }

  lemma {:induction false} NextTap<A(!new)>(ar: Arithmetic<A>, acc: A, bytes: seq<byte>, at: nat, step: nat, f: nat)
    requires at + Times(f, step) < |bytes|
    ensures Gather(ar, acc, bytes, at, step, f + 1) ==
      ar.plus(Gather(ar, acc, bytes, at, step, f), ar.lift(bytes[at + Times(f, step)]))
  {}

  /** One more tap for each byte of a pixel. */
  method AddTap<A(!new)>(ar: Arithmetic<A>, from: array<byte>, fromB: nat, to: array<A>, toB: nat, step: nat, f: nat,
                         ghost before: seq<A>)
    requires from as object != to as object && toB + step <= to.Length && fromB + Times(f, step) + step <= from.Length
    requires GroupAdded(ar, before, to[..], from[..], fromB, toB, step, step, f)
    modifies to
    ensures GroupAdded(ar, before, to[..], from[..], fromB, toB, step, step, f + 1)
  {
    hide Gather, Times;
    for i: nat := 0 to step
      invariant to.Length == |before|
      invariant forall b: nat :: b < to.Length ==>
        to[b] == if toB <= b < toB + step
                 then Gather(ar, before[b], from[..], fromB + (b - toB), step, if b < toB + i then f + 1 else f)
                 else before[b]
    {
      NextTap(ar, before[toB + i], from[..], fromB + i, step, f);
      to[toB + i] := ar.plus(to[toB + i], ar.lift(from[fromB + Times(f, step) + i]));
    }
  }

  /** A whole block row for each byte of a pixel. */
  method AddSpread<A(!new)>(ar: Arithmetic<A>, from: array<byte>, fromB: nat, to: array<A>, toB: nat, step: nat,
                            divisor: nat)
    requires from as object != to as object && toB + step <= to.Length && fromB + Times(divisor, step) <= from.Length
    modifies to
    ensures GroupAdded(ar, old(to[..]), to[..], from[..], fromB, toB, step, step, divisor)
  {
    for f: nat := 0 to divisor
      invariant GroupAdded(ar, old(to[..]), to[..], from[..], fromB, toB, step, step, f)
    {
      Monotone(f + 1, divisor, step);
      Distributes(f, 1, step);
      AddTap(ar, from, fromB, to, toB, step, f, old(to[..]));
    }
  }

  /** The bytes of a group lie as far apart in the source as in the row buffer. */
  lemma {:induction false} GroupSource(p: nat, group: nat, step: nat, divisor: nat, count: nat, b: nat)
    requires step > 0 && Times(p, step) <= b < Times(p, step) + Times(group, step)
    requires if divisor == 2 && count % 2 == 0 then group == 2 && p % 2 == 0 else group == 1
    ensures SourceByte(b, step, divisor, count) == Times(FirstPixel(p, divisor, count), step) + (b - Times(p, step))
  {
    var i := b - Times(p, step);
    Distributes(1, 1, step);
    Distributes(p, 1, step);
    if i < step {
      PlaceOf(p, i, step);
    } else {
      PlaceOf(p + 1, i - step, step);
      Distributes(FirstPixel(p, divisor, count), 1, step);
      assert FirstPixel(p + 1, divisor, count) == FirstPixel(p, divisor, count) + 1;
    }
  }

  /** One more group of the row is done. */
  lemma {:induction false} NextGroup<A(!new)>(ar: Arithmetic<A>, before: seq<A>, middle: seq<A>, after: seq<A>,
                                              bytes: seq<byte>, fromAt: nat, divisor: nat, step: nat, count: nat,
                                              p: nat, group: nat)
    requires step > 0 && if divisor == 2 && count % 2 == 0 then group == 2 && p % 2 == 0 else group == 1
    requires RowAdded(ar, before, middle, bytes, fromAt, divisor, step, count, Times(p, step))
    requires GroupAdded(ar, middle, after, bytes, fromAt + Times(FirstPixel(p, divisor, count), step),
                        Times(p, step), Times(group, step), step, Taps(divisor))
    ensures RowAdded(ar, before, after, bytes, fromAt, divisor, step, count, Times(p + group, step))
  {
    hide Times, SourceByte, Gather, FirstPixel;
    Distributes(p, group, step);
    forall b: nat | b < |after| && Times(p, step) <= b < Times(p, step) + Times(group, step)
      ensures SourceByte(b, step, divisor, count) == Times(FirstPixel(p, divisor, count), step) + (b - Times(p, step))
    {
      GroupSource(p, group, step, divisor, count, b);
    }
  }

  lemma {:induction false} NoGroup<A(!new)>(ar: Arithmetic<A>, before: seq<A>, bytes: seq<byte>, fromAt: nat,
                                            divisor: nat, step: nat, count: nat)
    requires step > 0
    ensures RowAdded(ar, before, before, bytes, fromAt, divisor, step, count, 0)
    ensures Taps(divisor) == 0 ==> RowAdded(ar, before, before, bytes, fromAt, divisor, step, count, |before|)
  {}

  /** Where a group's bytes and taps end. */
  lemma {:induction false} GroupFits(p: nat, group: nat, step: nat, divisor: nat, count: nat)
    requires step > 0 && p + group <= count
    requires if divisor == 2 && count % 2 == 0 then group == 2 && p % 2 == 0 else group == 1
    ensures Times(p, step) + Times(group, step) <= Times(count, step)
    ensures Times(FirstPixel(p, divisor, count), step) + Times(group - 1, step) + Times(Taps(divisor), step) <=
      Times(Times(count, divisor), step)
  {
    Monotone(p + group, count, step);
    Distributes(p, group, step);
    var first, taps := FirstPixel(p, divisor, count), Taps(divisor);
    PixelsInRow(p + group - 1, divisor, count);
    Monotone(first + group - 1 + taps, Times(count, divisor), step);
    Distributes(first + group - 1, taps, step);
    Distributes(first, group - 1, step);
  }

  /** Adds a source row to the row buffer. */
  method HalveRow<A(!new)>(ar: Arithmetic<A>, from: array<byte>, fromAt: nat, to: array<A>, count: nat, divisor: nat,
                           step: nat)
    requires Lawful(ar) && from as object != to as object && (step == 3 || step == 4)
    requires to.Length == Times(count, step) && fromAt + Times(Times(count, divisor), step) <= from.Length
    modifies to
    ensures RowAdded(ar, old(to[..]), to[..], from[..], fromAt, divisor, step, count, to.Length)
  {
    hide *;
    NoGroup(ar, to[..], from[..], fromAt, divisor, step, count);
    if divisor > 4 {
      HalveRowSpread(ar, from, fromAt, to, count, divisor, step);
      return;
    }
    if divisor == 2 && count % 2 == 0 {
      HalveRowPaired(ar, from, fromAt, to, count, step);
      return;
    }
    if divisor == 2 || divisor == 3 || divisor == 4 {
      HalveRowPlain(ar, from, fromAt, to, count, divisor, step);
      return;
    }
    TapsAre(divisor);
  }

  method HalveRowSpread<A(!new)>(ar: Arithmetic<A>, from: array<byte>, fromAt: nat, to: array<A>, count: nat,
                                 divisor: nat, step: nat)
    requires from as object != to as object && step > 0 && divisor > 4
    requires to.Length == Times(count, step) && fromAt + Times(Times(count, divisor), step) <= from.Length
    modifies to
    ensures RowAdded(ar, old(to[..]), to[..], from[..], fromAt, divisor, step, count, to.Length)
  {
    hide *;
    NoGroup(ar, to[..], from[..], fromAt, divisor, step, count);
    TapsAre(divisor);
    var toB: nat, fromB: nat := 0, fromAt;
    ghost var p: nat := 0;
    FirstStays(divisor, count, step);
    while toB < to.Length
      invariant p <= count && toB == Times(p, step) <= to.Length
        && fromB == fromAt + Times(FirstPixel(p, divisor, count), step)
      invariant RowAdded(ar, old(to[..]), to[..], from[..], fromAt, divisor, step, count, toB)
    {
      ghost var middle := to[..];
      NotDone(p, count, step);
      GroupFits(p, 1, step, divisor, count);
      FirstMoves(p, 1, divisor, count, step);
      Distributes(p, 1, step);
      AddSpread(ar, from, fromB, to, toB, step, divisor);
      NextGroup(ar, old(to[..]), middle, to[..], from[..], fromAt, divisor, step, count, p, 1);
      toB, fromB, p := toB + step, fromB + Times(divisor, step), p + 1;
    }
  }

  lemma {:induction false} NotDone(p: nat, count: nat, step: nat)
    requires p <= count && Times(p, step) < Times(count, step)
    ensures p < count
  {}

  /** The source moves on by as many pixels as a group stands for. */
  lemma {:induction false} FirstMoves(p: nat, group: nat, divisor: nat, count: nat, step: nat)
    requires if divisor == 2 && count % 2 == 0 then group == 2 && p % 2 == 0 else group == 1
    ensures Times(FirstPixel(p + group, divisor, count), step) ==
            Times(FirstPixel(p, divisor, count), step) + Times(if group == 2 then 4 else divisor, step)
  {
    Distributes(p, 1, divisor);
    Distributes(FirstPixel(p, divisor, count), if group == 2 then 4 else divisor, step);
  }

  lemma {:induction false} FirstStays(divisor: nat, count: nat, step: nat)
    ensures Times(FirstPixel(0, divisor, count), step) == 0 && Times(0, step) == 0
  {}

  method HalveRowPaired<A(!new)>(ar: Arithmetic<A>, from: array<byte>, fromAt: nat, to: array<A>, count: nat, step: nat)
    requires Lawful(ar) && from as object != to as object && step > 0 && count % 2 == 0
    requires to.Length == Times(count, step) && fromAt + Times(Times(count, 2), step) <= from.Length
    modifies to
    ensures RowAdded(ar, old(to[..]), to[..], from[..], fromAt, 2, step, count, to.Length)
  {
    hide *;
    NoGroup(ar, to[..], from[..], fromAt, 2, step, count);
    TapsAre(2);
    var toB: nat, fromB: nat := 0, fromAt;
    ghost var p: nat := 0;
    FirstStays(2, count, step);
    while toB < to.Length
      invariant p <= count && p % 2 == 0 && toB == Times(p, step) <= to.Length
        && fromB == fromAt + Times(FirstPixel(p, 2, count), step)
      invariant RowAdded(ar, old(to[..]), to[..], from[..], fromAt, 2, step, count, toB)
    {
      ghost var middle := to[..];
      NotDone(p, count, step);
      GroupFits(p, 2, step, 2, count);
      FirstMoves(p, 2, 2, count, step);
      Distributes(p, 2, step);
      Small(step);
      AddGroup(ar, from, fromB, to, toB, 2 * step, step, 2);
      NextGroup(ar, old(to[..]), middle, to[..], from[..], fromAt, 2, step, count, p, 2);
      toB, fromB, p := toB + 2 * step, fromB + 4 * step, p + 2;
    }
  }

  lemma {:induction false} Small(step: nat)
    ensures Times(0, step) == 0 && Times(1, step) == step && Times(2, step) == 2 * step
    ensures Times(3, step) == 3 * step && Times(4, step) == 4 * step
  {}

  method HalveRowPlain<A(!new)>(ar: Arithmetic<A>, from: array<byte>, fromAt: nat, to: array<A>, count: nat,
                                divisor: nat, step: nat)
    requires Lawful(ar) && from as object != to as object && step > 0 && 2 <= divisor <= 4
      && !(divisor == 2 && count % 2 == 0)
    requires to.Length == Times(count, step) && fromAt + Times(Times(count, divisor), step) <= from.Length
    modifies to
    ensures RowAdded(ar, old(to[..]), to[..], from[..], fromAt, divisor, step, count, to.Length)
  {
    hide *;
    NoGroup(ar, to[..], from[..], fromAt, divisor, step, count);
    TapsAre(divisor);
    var toB: nat, fromB: nat := 0, fromAt;
    ghost var p: nat := 0;
    FirstStays(divisor, count, step);
    Small(step);
    while toB < to.Length
      invariant p <= count && toB == Times(p, step) <= to.Length
        && fromB == fromAt + Times(FirstPixel(p, divisor, count), step)
      invariant RowAdded(ar, old(to[..]), to[..], from[..], fromAt, divisor, step, count, toB)
    {
      ghost var middle := to[..];
      NotDone(p, count, step);
      GroupFits(p, 1, step, divisor, count);
      FirstMoves(p, 1, divisor, count, step);
      Distributes(p, 1, step);
      AddGroup(ar, from, fromB, to, toB, step, step, divisor);
      NextGroup(ar, old(to[..]), middle, to[..], from[..], fromAt, divisor, step, count, p, 1);
      toB, fromB, p := toB + step, fromB + divisor * step, p + 1;
    }
  }

  // ---------- whole bitmaps ----------

  /** The row buffer holds the first d rows of the blocks of output row y. */
  ghost predicate RowsIn<A(!new)>(ar: Arithmetic<A>, buffer: seq<A>, src: seq<byte>, stride: nat, step: nat, y: nat,
                                  divisor: nat, count: nat, d: nat)
    requires step > 0
  {
    forall b: nat :: b < |buffer| ==> buffer[b] == GatherRows(ar, src, stride, step, y, b, divisor, count, d)
  }

  /** The memory, of which the source's is a copy from before, from index at on. */
  ghost predicate SameFrom(bytes: seq<byte>, src: seq<byte>, at: nat) {
    |bytes| == |src| && forall j :: at <= j < |bytes| ==> bytes[j] == src[j]
  }

  /** A source row added to the blocks' sums. */
  lemma {:induction false} NextRow<A(!new)>(ar: Arithmetic<A>, before: seq<A>, after: seq<A>, bytes: seq<byte>,
                                            src: seq<byte>, stride: nat, step: nat, y: nat, divisor: nat, count: nat,
                                            d: nat)
    requires step > 0
    requires RowsIn(ar, before, src, stride, step, y, divisor, count, d)
    requires SameFrom(bytes, src, Times(Times(y, divisor) + d, stride))
    requires RowAdded(ar, before, after, bytes, Times(Times(y, divisor) + d, stride), divisor, step, count, |before|)
    ensures RowsIn(ar, after, src, stride, step, y, divisor, count, d + 1)
  {
    hide SourceByte, Taps;
    var at := Times(Times(y, divisor) + d, stride);
    forall b: nat | b < |after| ensures after[b] == GatherRows(ar, src, stride, step, y, b, divisor, count, d + 1) {
      GatherBehind(ar, before[b], bytes, src, at + SourceByte(b, step, divisor, count), step, Taps(divisor));
    }
  }

  lemma {:induction false} SameFurther(bytes: seq<byte>, src: seq<byte>, at: nat, further: nat)
    requires SameFrom(bytes, src, at) && at <= further
    ensures SameFrom(bytes, src, further)
  {}

  lemma {:induction false} NoRows<A(!new)>(ar: Arithmetic<A>, buffer: seq<A>, src: seq<byte>, stride: nat, step: nat,
                                           y: nat, divisor: nat, count: nat)
    requires step > 0 && forall b :: 0 <= b < |buffer| ==> buffer[b] == ar.zero
    ensures RowsIn(ar, buffer, src, stride, step, y, divisor, count, 0)
  {}

  /** Fills the row buffer for output row y. */
  method GatherBlockRows<A(!new)>(ar: Arithmetic<A>, from: array<byte>, ghost src: seq<byte>, stride: nat,
                                  buffer: array<A>, y: nat, count: nat, rows: nat, divisor: nat, step: nat)
    requires Lawful(ar) && from as object != buffer as object && (step == 3 || step == 4)
    requires buffer.Length == Times(count, step) && y < rows && Holds(from.Length, stride, step, count, rows, divisor)
    requires SameFrom(from[..], src, Times(Times(y, divisor), stride))
    modifies buffer
    ensures RowsIn(ar, buffer[..], src, stride, step, y, divisor, count, divisor)
  {
    hide *;
    for b := 0 to buffer.Length
      invariant forall i :: 0 <= i < b ==> buffer[i] == ar.zero
    {
      buffer[b] := ar.zero;
    }
    NoRows(ar, buffer[..], src, stride, step, y, divisor, count);
    for d: nat := 0 to divisor
      invariant RowsIn(ar, buffer[..], src, stride, step, y, divisor, count, d)
    {
      RowFits(from.Length, stride, step, count, rows, divisor, y, d);
      Monotone(Times(y, divisor), Times(y, divisor) + d, stride);
      SameFurther(from[..], src, Times(Times(y, divisor), stride), Times(Times(y, divisor) + d, stride));
      ghost var before := buffer[..];
      HalveRow(ar, from, Times(Times(y, divisor) + d, stride), buffer, count, divisor, step);
      NextRow(ar, before, buffer[..], from[..], src, stride, step, y, divisor, count, d);
    }
  }

  /** One finished row goes from the buffer to memory. */
  method WriteRow<A(!new)>(ar: Arithmetic<A>, buffer: array<A>, to: array<byte>, at: nat)
    requires buffer as object != to as object && at + buffer.Length <= to.Length
    modifies to
    ensures forall j :: 0 <= j < to.Length ==>
      to[j] == if at <= j < at + buffer.Length then ar.lower(buffer[j - at]) else old(to[j])
  {
    for b := 0 to buffer.Length
      invariant forall j :: 0 <= j < to.Length ==>
        to[j] == if at <= j < at + b then ar.lower(buffer[j - at]) else old(to[j])
    {
      to[at + b] := ar.lower(buffer[b]);
    }
  }

  /** Memory with one more row written. */
  lemma {:induction false} NextWritten<A(!new)>(ar: Arithmetic<A>, buffer: seq<A>, before: seq<byte>, after: seq<byte>,
                                                src: seq<byte>, dst: seq<byte>, stride: nat, step: nat, divisor: nat,
                                                count: nat, y: nat, toStride: nat)
    requires step > 0 && |buffer| == Times(count, step) <= toStride
    requires before == HalvedPixels(ar, src, dst, stride, step, divisor, count, y, toStride)
    requires RowsIn(ar, buffer, src, stride, step, y, divisor, count, divisor)
    requires |after| == |before| && forall j :: 0 <= j < |after| ==>
      after[j] == if Times(y, toStride) <= j < Times(y, toStride) + |buffer|
        then ar.lower(buffer[j - Times(y, toStride)]) else before[j]
    ensures after == HalvedPixels(ar, src, dst, stride, step, divisor, count, y + 1, toStride)
  {
    hide GatherRows, Times;
    var next := HalvedPixels(ar, src, dst, stride, step, divisor, count, y + 1, toStride);
    forall j: nat | j < |after| ensures after[j] == next[j] {
      RowOf(j, y, toStride, |buffer|);
    }
  }

  /** An index in the picture's first y + 1 rows is in its first y or in row y. */
  lemma {:induction false} RowOf(j: nat, y: nat, stride: nat, rowBytes: nat)
    requires rowBytes <= stride
    ensures InPicture(j, stride, rowBytes, y + 1) <==>
      InPicture(j, stride, rowBytes, y) || Times(y, stride) <= j < Times(y, stride) + rowBytes
    ensures Times(y, stride) <= j < Times(y, stride) + rowBytes ==>
      !InPicture(j, stride, rowBytes, y) && j / stride == y && j % stride == j - Times(y, stride)
    ensures InPicture(j, stride, rowBytes, y) ==> j < Times(y, stride)
  {
    if Times(y, stride) <= j < Times(y, stride) + rowBytes {
      PlaceOf(y, j - Times(y, stride), stride);
    }
    if stride > 0 && j / stride < y {
      Monotone(j / stride + 1, y, stride);
      Distributes(j / stride, 1, stride);
    }
  }

  lemma {:induction false} NothingWritten<A>(ar: Arithmetic<A>, src: seq<byte>, dst: seq<byte>, stride: nat, step: nat,
                                             divisor: nat, count: nat, toStride: nat)
    requires step > 0
    ensures HalvedPixels(ar, src, dst, stride, step, divisor, count, 0, toStride) == dst
  {}

  /** In place, the rows written so far do not reach the block rows still to be read. */
  lemma {:induction false} WritesStayBehind<A>(ar: Arithmetic<A>, src: seq<byte>, stride: nat, step: nat, divisor: nat,
                                               count: nat, y: nat, toStride: nat)
    requires step > 0 && Times(count, step) <= toStride <= Times(divisor, stride)
    ensures SameFrom(HalvedPixels(ar, src, src, stride, step, divisor, count, y, toStride), src,
                     Times(Times(y, divisor), stride))
  {
    Swapped(y, divisor, stride);
    Monotone(toStride, Times(divisor, stride), y);
    forall j: nat | Times(Times(y, divisor), stride) <= j < |src|
      ensures HalvedPixels(ar, src, src, stride, step, divisor, count, y, toStride)[j] == src[j]
    {
      RowOf(j, y, toStride, Times(count, step));
    }
  }

  lemma {:induction false} Swapped(y: nat, d: nat, n: nat)
    ensures Times(Times(y, d), n) == Times(Times(d, n), y)
    ensures forall k: nat :: Times(y, k) == Times(k, y)
  {}

  /** Memory has room for the result. */
  predicate Room(length: nat, rowBytes: nat, rows: nat, toStride: nat) {
    rowBytes <= toStride && (rows > 0 ==> Times(rows - 1, toStride) + rowBytes <= length)
  }

  lemma {:induction false} RowRoom(length: nat, rowBytes: nat, rows: nat, toStride: nat, y: nat)
    requires Room(length, rowBytes, rows, toStride) && y < rows
    ensures Times(y, toStride) + rowBytes <= length && rowBytes <= toStride
  {
    Monotone(y, rows - 1, toStride);
  }

  /** Row by row; the memories may be one and the same when its rows only move towards its start. */
  method HalveRows<A(!new)>(ar: Arithmetic<A>, from: array<byte>, to: array<byte>, stride: nat, count: nat, rows: nat,
                            toStride: nat, divisor: nat, step: nat)
    requires Lawful(ar) && (step == 3 || step == 4)
    requires Holds(from.Length, stride, step, count, rows, divisor)
      && Room(to.Length, Times(count, step), rows, toStride)
    requires from == to ==> toStride <= Times(divisor, stride)
    modifies to
    ensures to[..] == HalvedPixels(ar, old(from[..]), old(to[..]), stride, step, divisor, count, rows, toStride)
  {
    hide *;
    ghost var src, dst := from[..], to[..];
    var buffer := new A[Times(count, step)](_ => ar.zero);
    NothingWritten(ar, src, dst, stride, step, divisor, count, toStride);
    for y: nat := 0 to rows
      invariant to[..] == HalvedPixels(ar, src, dst, stride, step, divisor, count, y, toStride)
      invariant from != to ==> from[..] == src
    {
      RowRoom(to.Length, Times(count, step), rows, toStride, y);
      Unread(ar, from[..], to[..], src, dst, stride, step, divisor, count, y, toStride);
      GatherBlockRows(ar, from, src, stride, buffer, y, count, rows, divisor, step);
      ghost var before := to[..];
      WriteRow(ar, buffer, to, Times(y, toStride));
      NextWritten(ar, buffer[..], before, to[..], src, dst, stride, step, divisor, count, y, toStride);
    }
  }

  /** Whichever memory the source is in, its next rows are as they were. */
  lemma {:induction false} Unread<A>(ar: Arithmetic<A>, from: seq<byte>, to: seq<byte>, src: seq<byte>, dst: seq<byte>,
                                     stride: nat, step: nat, divisor: nat, count: nat, y: nat, toStride: nat)
    requires step > 0 && Times(count, step) <= toStride
    requires to == HalvedPixels(ar, src, dst, stride, step, divisor, count, y, toStride)
    requires from == src || (from == to && src == dst && toStride <= Times(divisor, stride))
    ensures SameFrom(from, src, Times(Times(y, divisor), stride))
  {
    hide HalvedPixels, Times;
    if from != src {
      WritesStayBehind(ar, src, stride, step, divisor, count, y, toStride);
    }
  }

  /** Halves into a bitmap's memory, for three or four bytes to a pixel; needs memory for the buffer. */
  method HalveInternal<A(!new)>(ar: Arithmetic<A>, from: ByteBitmap, to: ByteBitmap, count: nat, rows: nat,
                                toStride: nat, divisor: nat, memory: bool)
    returns (ok: bool)
    requires Lawful(ar)
    requires Holds(from.pixels.Length, from.stride, BytesPerPixel(from.fmt), count, rows, divisor)
    requires Room(to.pixels.Length, Times(count, BytesPerPixel(to.fmt)), rows, toStride)
    requires from.pixels == to.pixels ==> toStride <= Times(divisor, from.stride)
    modifies to.pixels
    ensures ok <==> memory && from.fmt == to.fmt && from.fmt != Gray8
    ensures !ok ==> unchanged(to.pixels)
    ensures ok ==>
      to.pixels[..] == HalvedPixels(ar, old(from.pixels[..]), old(to.pixels[..]), from.stride, BytesPerPixel(from.fmt),
                                    divisor, count, rows, toStride)
  {
    if !memory { return false; }
    var step := BytesPerPixel(from.fmt);
    if from.fmt != to.fmt || (step != 3 && step != 4) { return false; }
    HalveRows(ar, from.pixels, to.pixels, from.stride, count, rows, toStride, divisor, step);
    return true;
  }

  /** Into a bitmap of its own. */
  method Halve<A(!new)>(ar: Arithmetic<A>, from: ByteBitmap, to: ByteBitmap, divisor: nat, memory: bool)
    returns (ok: bool)
    requires Lawful(ar) && from.pixels != to.pixels && divisor >= 1
    requires Holds(from.pixels.Length, from.stride, BytesPerPixel(from.fmt), to.w, to.h, divisor)
    requires Room(to.pixels.Length, Times(to.w, BytesPerPixel(to.fmt)), to.h, to.stride)
    modifies to.pixels
    ensures ok <==> memory && from.fmt == to.fmt && from.fmt != Gray8
    ensures !ok ==> unchanged(to.pixels)
    ensures ok ==>
      to.pixels[..] == HalvedPixels(ar, old(from.pixels[..]), old(to.pixels[..]), from.stride, BytesPerPixel(from.fmt),
                                    divisor, to.w, to.h, to.stride)
  {
    ok := HalveInternal(ar, from, to, to.w, to.h, to.stride, divisor, memory);
  }

  lemma {:induction false} InPlaceFits(length: nat, w: nat, h: nat, stride: nat, step: nat, divisor: nat)
    requires Stored(length, w, h, stride, step) && divisor >= 1
    ensures Holds(length, stride, step, w / divisor, h / divisor, divisor)
    ensures Room(length, Times(w / divisor, step), h / divisor, Times(w / divisor, step))
    ensures Times(w / divisor, step) <= Times(divisor, stride)
  {
    Quotient(w, divisor);
    Quotient(h, divisor);
    Monotone(Times(w / divisor, divisor), w, step);
    Monotone(w / divisor, w, step);
    Monotone(1, divisor, stride);
    Distributes(1, 0, stride);
    if h / divisor > 0 {
      Monotone(Times(h / divisor, divisor) - 1, h - 1, stride);
      Monotone(h / divisor - 1, h - 1, Times(w / divisor, step));
      Swapped(h - 1, 1, 1);
      Monotone(Times(w / divisor, step), stride, h - 1);
    }
  }

  /** In its own memory, packing the rows; the size changes whether or not the halving worked. */
  method HalveInPlace<A(!new)>(ar: Arithmetic<A>, b: ByteBitmap, divisor: nat, memory: bool) returns (ok: bool)
    requires Lawful(ar) && divisor >= 1 && Stored(b.pixels.Length, b.w, b.h, b.stride, BytesPerPixel(b.fmt))
    modifies b, b.pixels
    ensures ok <==> memory && b.fmt != Gray8
    ensures b.w == old(b.w) / divisor && b.h == old(b.h) / divisor && b.stride == Times(b.w, BytesPerPixel(b.fmt))
    ensures b.pixels[..] == if !ok then old(b.pixels[..]) else
        HalvedPixels(ar, old(b.pixels[..]), old(b.pixels[..]), old(b.stride), BytesPerPixel(b.fmt), divisor, b.w, b.h,
                     b.stride)
    ensures Stored(b.pixels.Length, b.w, b.h, b.stride, BytesPerPixel(b.fmt))
  {
    var toW: nat, toH: nat := b.w / divisor, b.h / divisor;
    var toStride := Times(toW, BytesPerPixel(b.fmt));
    InPlaceFits(b.pixels.Length, b.w, b.h, b.stride, BytesPerPixel(b.fmt), divisor);
    ok := HalveInternal(ar, b, b, toW, toH, toStride, divisor, memory);
    b.w, b.h, b.stride := toW, toH, toStride;
  }
}
