// Halving a bitmap in either working space: every byte of the result is that of
// the mean of its block.

module HalvingBitmaps {
  import opened Memory
  import opened BitmapTransform
  import opened HalvingSpec
  import opened HalvingMeans
  import opened HalvingLight
  import opened Halving

  /** Bytes as they are, or the light they stand for. */
  datatype Working = AsIs | Linear(light: Light)

  /** Whether every byte is a mean, and what mean it is. */
  predicate MeansTaken(space: Working, divisor: nat, count: nat) {
    if space.AsIs? then Exact(divisor, count) else LightExact(divisor, count)
  }

  function Mean(space: Working, src: seq<byte>, stride: nat, step: nat, y: nat, p: nat, c: nat, divisor: nat): int
    requires divisor > 0
  {
    match space
    case AsIs => BlockSum(src, stride, step, y, p, c, divisor, divisor) / Square(divisor)
    case Linear(light) => MeanByte(light, src, stride, step, y, p, c, divisor)
  }

  /** Channel c of the pixel in row y and column p is the mean of its block. */
  predicate PixelIsMean(space: Working, after: seq<byte>, toStride: nat, src: seq<byte>, stride: nat, step: nat,
                        y: nat, p: nat, c: nat, divisor: nat)
    requires divisor > 0
  {
    var at := Times(y, toStride) + Times(p, step) + c;
    at < |after| && after[at] == Mean(space, src, stride, step, y, p, c, divisor)
  }

  /** Every pixel is the mean of its block, and bytes of no pixel are as they were. */
  ghost predicate HoldsMeans(space: Working, after: seq<byte>, toStride: nat, w: nat, h: nat, src: seq<byte>,
                             dst: seq<byte>, stride: nat, step: nat, divisor: nat)
    requires divisor > 0
  {
    && |after| == |dst|
    && (forall y: nat, p: nat, c: nat :: y < h && p < w && c < step ==>
          PixelIsMean(space, after, toStride, src, stride, step, y, p, c, divisor))
    && (forall j :: 0 <= j < |after| && !InPicture(j, toStride, Times(w, step), h) ==> after[j] == dst[j])
  }

  lemma {:induction false} PixelPlace(y: nat, p: nat, c: nat, toStride: nat, step: nat, w: nat, h: nat, length: nat)
    requires y < h && p < w && c < step && Room(length, Times(w, step), h, toStride)
    ensures var j := Times(y, toStride) + Times(p, step) + c;
            && j < length && InPicture(j, toStride, Times(w, step), h)
            && j / toStride == y && j % toStride == Times(p, step) + c
    ensures (Times(p, step) + c) / step == p && (Times(p, step) + c) % step == c
  {
    hide Times;
    Monotone(p + 1, w, step);
    Distributes(p, 1, step);
    Monotone(y, h - 1, toStride);
    PlaceOf(y, Times(p, step) + c, toStride);
    PlaceOf(p, c, step);
  }

  /** Whole bytes cannot be divided by a square of which sixteen bits keep nothing. */
  predicate Divides(space: Working, divisor: nat) {
    divisor > 0 && (space.AsIs? ==> StoredSquare(divisor) > 0)
  }

  /** The memory after halving in a working space. */
  function HalvedIn(space: Working, src: seq<byte>, dst: seq<byte>, stride: nat, step: nat, divisor: nat, w: nat,
                    h: nat, toStride: nat): seq<byte>
    requires step > 0 && Divides(space, divisor)
  {
    match space
    case AsIs => HalvedPixels<nat>(SixteenBit(divisor), src, dst, stride, step, divisor, w, h, toStride)
    case Linear(light) => HalvedPixels(LinearLight(light, divisor), src, dst, stride, step, divisor, w, h, toStride)
  }

  /** One byte of the memory afterwards. */
  lemma {:induction false} HalvedInAt(space: Working, src: seq<byte>, dst: seq<byte>, stride: nat, step: nat,
                                      divisor: nat, w: nat, h: nat, toStride: nat, j: nat)
    requires step > 0 && MeansTaken(space, divisor, w) && Divides(space, divisor) && j < |dst|
    ensures var after := HalvedIn(space, src, dst, stride, step, divisor, w, h, toStride);
            && |after| == |dst|
            && after[j] == if InPicture(j, toStride, Times(w, step), h)
                             then Mean(space, src, stride, step, j / toStride, j % toStride / step,
                                       j % toStride % step, divisor)
                           else dst[j]
  {
    hide Times, StoredSquare, HalvedByte, BlockSum, MeanByte, SixteenBit, LinearLight;
    if InPicture(j, toStride, Times(w, step), h) {
      match space
      case AsIs => ExactMean(src, stride, step, j / toStride, j % toStride, divisor, w);
      case Linear(light) => LightMean(light, src, stride, step, j / toStride, j % toStride, divisor, w);
    }
  }

  lemma {:induction false} HalvedHoldsMeans(space: Working, src: seq<byte>, dst: seq<byte>, stride: nat, step: nat,
                                            divisor: nat, w: nat, h: nat, toStride: nat)
    requires step > 0 && MeansTaken(space, divisor, w) && Divides(space, divisor)
    requires Room(|dst|, Times(w, step), h, toStride)
    ensures HoldsMeans(space, HalvedIn(space, src, dst, stride, step, divisor, w, h, toStride), toStride, w, h, src,
                       dst,
                       stride, step, divisor)
  {
    hide Times, Room, InPicture, Mean, MeansTaken, StoredSquare, HalvedIn;
    var after := HalvedIn(space, src, dst, stride, step, divisor, w, h, toStride);
    SameLength(space, src, dst, stride, step, divisor, w, h, toStride);
    forall j | 0 <= j < |after| && !InPicture(j, toStride, Times(w, step), h) ensures after[j] == dst[j] {
      HalvedInAt(space, src, dst, stride, step, divisor, w, h, toStride, j);
    }
    forall y: nat, p: nat, c: nat | y < h && p < w && c < step
      ensures PixelIsMean(space, after, toStride, src, stride, step, y, p, c, divisor)
    {
      PixelPlace(y, p, c, toStride, step, w, h, |dst|);
      HalvedInAt(space, src, dst, stride, step, divisor, w, h, toStride, Times(y, toStride) + Times(p, step) + c);
    }
  }

  lemma {:induction false} SameLength(space: Working, src: seq<byte>, dst: seq<byte>, stride: nat, step: nat,
                                      divisor: nat, w: nat, h: nat, toStride: nat)
    requires step > 0 && Divides(space, divisor)
    ensures |HalvedIn(space, src, dst, stride, step, divisor, w, h, toStride)| == |dst|
  {}

  /** Into a bitmap of its own. */
  method HalveBitmap(space: Working, from: ByteBitmap, to: ByteBitmap, divisor: nat, memory: bool) returns (ok: bool)
    requires Divides(space, divisor) && from.pixels != to.pixels
    requires Holds(from.pixels.Length, from.stride, BytesPerPixel(from.fmt), to.w, to.h, divisor)
    requires Room(to.pixels.Length, Times(to.w, BytesPerPixel(to.fmt)), to.h, to.stride)
    modifies to.pixels
    ensures ok <==> memory && from.fmt == to.fmt && from.fmt != Gray8
    ensures !ok ==> unchanged(to.pixels)
    ensures ok ==> to.pixels[..] == HalvedIn(space, old(from.pixels[..]), old(to.pixels[..]), from.stride,
                                             BytesPerPixel(from.fmt), divisor, to.w, to.h, to.stride)
    ensures ok && MeansTaken(space, divisor, to.w) ==>
      HoldsMeans(space, to.pixels[..], to.stride, to.w, to.h, old(from.pixels[..]), old(to.pixels[..]), from.stride,
                 BytesPerPixel(from.fmt), divisor)
  {
    hide Times, Holds, Room, HalvedPixels, HoldsMeans, MeansTaken, StoredSquare, SixteenBit, LinearLight, Lawful;
    ghost var src, dst := from.pixels[..], to.pixels[..];
    match space {
      case AsIs => {
        SixteenBitLawful(divisor);
        ok := Halve<nat>(SixteenBit(divisor), from, to, divisor, memory);
      }
      case Linear(light) => {
        LinearLightLawful(light, divisor);
        ok := Halve(LinearLight(light, divisor), from, to, divisor, memory);
      }
    }
    if ok && MeansTaken(space, divisor, to.w) {
      HalvedHoldsMeans(space, src, dst, from.stride, BytesPerPixel(from.fmt), divisor, to.w, to.h, to.stride);
    }
  }

  /** In its own memory; the size changes whether or not the halving worked. */
  method HalveBitmapInPlace(space: Working, b: ByteBitmap, divisor: nat, memory: bool) returns (ok: bool)
    requires Divides(space, divisor) && Stored(b.pixels.Length, b.w, b.h, b.stride, BytesPerPixel(b.fmt))
    modifies b, b.pixels
    ensures ok <==> memory && b.fmt != Gray8
    ensures b.w == old(b.w) / divisor && b.h == old(b.h) / divisor && b.stride == Times(b.w, BytesPerPixel(b.fmt))
    ensures !ok ==> b.pixels[..] == old(b.pixels[..])
    ensures ok ==> b.pixels[..] == HalvedIn(space, old(b.pixels[..]), old(b.pixels[..]), old(b.stride),
                                            BytesPerPixel(b.fmt), divisor, b.w, b.h, b.stride)
    ensures ok && MeansTaken(space, divisor, b.w) ==>
      HoldsMeans(space, b.pixels[..], b.stride, b.w, b.h, old(b.pixels[..]), old(b.pixels[..]), old(b.stride),
                 BytesPerPixel(b.fmt), divisor)
    ensures Stored(b.pixels.Length, b.w, b.h, b.stride, BytesPerPixel(b.fmt))
  {
    hide Times, Room, Stored, HalvedPixels, HoldsMeans, MeansTaken, StoredSquare, SixteenBit, LinearLight, Lawful;
    ghost var src, stride := b.pixels[..], b.stride;
    InPlaceFits(b.pixels.Length, b.w, b.h, b.stride, BytesPerPixel(b.fmt), divisor);
    match space {
      case AsIs => {
        SixteenBitLawful(divisor);
        ok := HalveInPlace<nat>(SixteenBit(divisor), b, divisor, memory);
      }
      case Linear(light) => {
        LinearLightLawful(light, divisor);
        ok := HalveInPlace(LinearLight(light, divisor), b, divisor, memory);
      }
    }
    if ok && MeansTaken(space, divisor, b.w) {
      HalvedHoldsMeans(space, src, src, stride, BytesPerPixel(b.fmt), divisor, b.w, b.h, b.stride);
    }
  }
}
