// Transposing and flipping bitmaps: the blocked transpose with its remainder
// copies, and the flips in place.

module BitmapTransform {
  import opened PictureSpec

  datatype Format = Bgr24 | Bgra32 | Bgr32 | Gray8

  function BytesPerPixel(fmt: Format): nat {
    match fmt
    case Bgr24 => 3
    case Bgra32 => 4
    case Bgr32 => 4
    case Gray8 => 1
  }

  /** A bitmap; a row's cells are the pixels that fit its stride, the first w of them the picture's, the rest
      padding. */
  class Bitmap<P> {
    const w: nat
    const h: nat
    const stride: nat
    const fmt: Format
    const cells: array2<P>

    ghost predicate Valid() {
      && 1 <= w <= cells.Length1 && 1 <= h == cells.Length0
      && cells.Length1 == stride / BytesPerPixel(fmt)
    }

    constructor (w: nat, h: nat, stride: nat, fmt: Format, cells: array2<P>)
      requires 1 <= w <= cells.Length1 && 1 <= h == cells.Length0 && cells.Length1 == stride / BytesPerPixel(fmt)
      ensures Valid() && this.w == w && this.h == h && this.stride == stride && this.fmt == fmt && this.cells == cells
    {
      this.w, this.h, this.stride, this.fmt, this.cells := w, h, stride, fmt, cells;
    }

    ghost function Picture(): (p: Picture<P>)
      requires Valid()
      reads cells
      ensures |p| == h && Wide(p, w)
      ensures forall y, x :: 0 <= y < h && 0 <= x < w ==> p[y][x] == cells[y, x]
    {
      seq(h, y requires 0 <= y < h reads cells => seq(w, x requires 0 <= x < w reads cells => cells[y, x]))
    }
  }

  /** The cells behind the picture in every row are what they were. */
  twostate predicate PaddingKept<P>(b: Bitmap<P>)
    requires b.Valid()
    reads b.cells
  {
    forall y, x :: 0 <= y < b.h && b.w <= x < b.cells.Length1 ==> b.cells[y, x] == old(b.cells[y, x])
  }

  /** Rows r0..r1, columns c0..c1 of a have been transposed into b; the rest of b is what it was. */
  twostate predicate BlockDone<P>(a: array2<P>, b: array2<P>, r0: int, r1: int, c0: int, c1: int)
    requires a != b && 0 <= r0 && r1 <= a.Length0 && 0 <= c0 && c1 <= a.Length1 && r1 <= b.Length1 && c1 <= b.Length0
    reads a, b
  {
    forall y, x :: 0 <= y < b.Length0 && 0 <= x < b.Length1 ==>
      b[y, x] == if r0 <= x < r1 && c0 <= y < c1 then a[x, y] else old(b[y, x])
  }

  /** Sixteen words loaded as four rows, stored as four columns. */
  method Transpose4x4<P>(a: array2<P>, b: array2<P>, i: nat, j: nat)
    requires a != b && i + 4 <= a.Length0 && j + 4 <= a.Length1 && i + 4 <= b.Length1 && j + 4 <= b.Length0
    modifies b
    ensures BlockDone(a, b, i, i + 4, j, j + 4)
  {
    var row1 := [a[i, j], a[i, j + 1], a[i, j + 2], a[i, j + 3]];
    var row2 := [a[i + 1, j], a[i + 1, j + 1], a[i + 1, j + 2], a[i + 1, j + 3]];
    var row3 := [a[i + 2, j], a[i + 2, j + 1], a[i + 2, j + 2], a[i + 2, j + 3]];
    var row4 := [a[i + 3, j], a[i + 3, j + 1], a[i + 3, j + 2], a[i + 3, j + 3]];
    for k := 0 to 4
      invariant forall y, x :: 0 <= y < b.Length0 && 0 <= x < b.Length1 ==>
        b[y, x] == if i <= x < i + 4 && j <= y < j + k then a[x, y] else old(b[y, x])
    {
      b[j + k, i], b[j + k, i + 1], b[j + k, i + 2], b[j + k, i + 3] := row1[k], row2[k], row3[k], row4[k];
    }
  }

  /** Four rows of a block. */
  method TransposeStrip<P>(a: array2<P>, b: array2<P>, i: nat, j: nat, maxJ: nat)
    requires a != b && i + 4 <= a.Length0 && j <= maxJ <= a.Length1 && i + 4 <= b.Length1 && maxJ <= b.Length0
    requires (maxJ - j) % 4 == 0
    modifies b
    ensures BlockDone(a, b, i, i + 4, j, maxJ)
  {
    var j2 := j;
    while j2 < maxJ
      invariant j <= j2 <= maxJ && (maxJ - j2) % 4 == 0
      invariant BlockDone(a, b, i, i + 4, j, j2)
    {
      Transpose4x4(a, b, i, j2);
      j2 := j2 + 4;
    }
  }

  /** One block. */
  method TransposeBlock<P>(a: array2<P>, b: array2<P>, i: nat, maxI: nat, j: nat, maxJ: nat)
    requires a != b && i <= maxI <= a.Length0 && j <= maxJ <= a.Length1 && maxI <= b.Length1 && maxJ <= b.Length0
    requires (maxI - i) % 4 == 0 && (maxJ - j) % 4 == 0
    modifies b
    ensures BlockDone(a, b, i, maxI, j, maxJ)
  {
    var i2 := i;
    while i2 < maxI
      invariant i <= i2 <= maxI && (maxI - i2) % 4 == 0
      invariant BlockDone(a, b, i, i2, j, maxJ)
    {
      TransposeStrip(a, b, i2, j, maxJ);
      i2 := i2 + 4;
    }
  }

  /** The blocks of the rows from i on. */
  method TransposeBlockRow<P>(a: array2<P>, b: array2<P>, i: nat, maxI: nat, m: nat, blockSize: nat)
    requires a != b && i <= maxI <= a.Length0 && m <= a.Length1 && maxI <= b.Length1 && m <= b.Length0
    requires (maxI - i) % 4 == 0 && m % 4 == 0 && blockSize > 0 && blockSize % 4 == 0
    modifies b
    ensures BlockDone(a, b, i, maxI, 0, m)
  {
    var j := 0;
    while j < m
      invariant 0 <= j && j % 4 == 0
      invariant BlockDone(a, b, i, maxI, 0, if j < m then j else m)
    {
      TransposeBlock(a, b, i, maxI, j, if j + blockSize < m then j + blockSize else m);
      j := j + blockSize;
    }
  }

  /** The first n rows and m columns, block by block. */
  method TransposeBlocks<P>(a: array2<P>, b: array2<P>, n: nat, m: nat, blockSize: nat)
    requires a != b && n <= a.Length0 && m <= a.Length1 && n <= b.Length1 && m <= b.Length0
    requires n % 4 == 0 && m % 4 == 0 && blockSize > 0 && blockSize % 4 == 0
    modifies b
    ensures BlockDone(a, b, 0, n, 0, m)
  {
    var i := 0;
    while i < n
      invariant 0 <= i && i % 4 == 0
      invariant BlockDone(a, b, 0, if i < n then i else n, 0, m)
    {
      TransposeBlockRow(a, b, i, if i + blockSize < n then i + blockSize else n, m, blockSize);
      i := i + blockSize;
    }
  }

  /** Copies rows r0..r1, columns c0..c1 cell by cell. */
  method CopyTransposed<P>(a: array2<P>, b: array2<P>, r0: nat, r1: nat, c0: nat, c1: nat)
    requires a != b && r0 <= r1 <= a.Length0 && c0 <= c1 <= a.Length1 && r1 <= b.Length1 && c1 <= b.Length0
    modifies b
    ensures BlockDone(a, b, r0, r1, c0, c1)
  {
    for x := r0 to r1
      invariant BlockDone(a, b, r0, x, c0, c1)
    {
      for y := c0 to c1
        invariant forall v, u :: 0 <= v < b.Length0 && 0 <= u < b.Length1 ==>
          b[v, u] == if c0 <= v < c1 && (r0 <= u < x || (u == x && v < y)) then a[u, v] else old(b[v, u])
      {
        b[y, x] := a[x, y];
      }
    }
  }

  /** In blocks as far as croppedH and croppedW, the rest cell by cell. */
  method TransposeCropped<P>(a: array2<P>, b: array2<P>, h: nat, w: nat, croppedH: nat, croppedW: nat)
    requires a != b && h <= a.Length0 && w <= a.Length1 && h <= b.Length1 && w <= b.Length0
    requires croppedH <= h && croppedW <= w && croppedH % 4 == 0 && croppedW % 4 == 0
    modifies b
    ensures BlockDone(a, b, 0, h, 0, w)
  {
    TransposeBlocks(a, b, croppedH, croppedW, 128);
    CopyTransposed(a, b, croppedH, h, 0, w);
    CopyTransposed(a, b, 0, croppedH, croppedW, w);
  }

  lemma {:induction false} Cropped(n: nat)
    ensures 0 <= n - n % 8 <= n && (n - n % 8) % 4 == 0
  {}

  predicate SameShape<P>(from: Bitmap<P>, to: Bitmap<P>) {
    from.w == to.h && from.h == to.w && from.fmt == to.fmt
  }

  /** Four bytes to a pixel and strides of whole vectors, or three bytes to a pixel. */
  predicate Supported(fmt: Format, fromStride: nat, toStride: nat) {
    match fmt
    case Gray8 => false
    case Bgr24 => true
    case _ => fromStride % 8 == 0 && toStride % 8 == 0
  }

  lemma {:induction false} SamePicture<P>(a: Picture<P>, b: Picture<P>, w: nat)
    requires |a| == |b| && Wide(a, w) && Wide(b, w)
    requires forall y, x :: 0 <= y < |a| && 0 <= x < w ==> a[y][x] == b[y][x]
    ensures a == b
  {
    forall y | 0 <= y < |a| ensures a[y] == b[y] {}
  }

  /** Cell by cell; three or four bytes to a pixel. */
  method TransposeSlow<P>(from: Bitmap<P>, to: Bitmap<P>) returns (ok: bool)
    requires from.Valid() && to.Valid() && from.cells != to.cells
    modifies to.cells
    ensures ok <==> SameShape(from, to) && from.fmt != Gray8
    ensures ok ==> to.Picture() == Transposed(from.Picture(), from.w) && PaddingKept(to)
    ensures !ok ==> unchanged(to.cells)
  {
    if from.w != to.h || from.h != to.w || from.fmt != to.fmt { return false; }
    if from.fmt == Gray8 { return false; }
    CopyTransposed(from.cells, to.cells, 0, to.w, 0, to.h);
    SamePicture(to.Picture(), Transposed(from.Picture(), from.w), to.w);
    return true;
  }

  /** In blocks for four bytes to a pixel, which then want both strides to be multiples of eight. */
  method Transpose<P>(from: Bitmap<P>, to: Bitmap<P>) returns (ok: bool)
    requires from.Valid() && to.Valid() && from.cells != to.cells
    modifies to.cells
    ensures ok <==> SameShape(from, to) && Supported(from.fmt, from.stride, to.stride)
    ensures ok ==> to.Picture() == Transposed(from.Picture(), from.w) && PaddingKept(to)
    ensures !ok ==> unchanged(to.cells)
  {
    if from.w != to.h || from.h != to.w || from.fmt != to.fmt { return false; }
    if from.fmt != Bgra32 && from.fmt != Bgr32 {
      ok := TransposeSlow(from, to);
      return;
    }
    if from.stride % 8 != 0 || to.stride % 8 != 0 { return false; }
    Cropped(from.h);
    Cropped(from.w);
    TransposeCropped(from.cells, to.cells, from.h, from.w, from.h - from.h % 8, from.w - from.w % 8);
    SamePicture(to.Picture(), Transposed(from.Picture(), from.w), to.w);
    return true;
  }

  /** Swaps the picture's part of two rows by way of a spare row. */
  method SwapRows<P>(b: Bitmap<P>, top: nat, bottom: nat)
    requires b.Valid() && top < bottom < b.h
    modifies b.cells
    ensures forall y, x :: 0 <= y < b.h && 0 <= x < b.cells.Length1 ==>
      b.cells[y, x] == if x < b.w && y == top then old(b.cells[bottom, x])
                       else if x < b.w && y == bottom then old(b.cells[top, x]) else old(b.cells[y, x])
  {
    var swap := new P[b.w](x requires 0 <= x < b.w reads b.cells => b.cells[top, x]);
    forall x | 0 <= x < b.w { b.cells[top, x] := b.cells[bottom, x]; }
    forall x | 0 <= x < b.w { b.cells[bottom, x] := swap[x]; }
  }

  /** Upside down in place; needs memory for one row. */
  method FlipVertical<P>(b: Bitmap<P>, memory: bool) returns (ok: bool)
    requires b.Valid()
    modifies b.cells
    ensures ok == memory
    ensures b.Picture() == if ok then FlippedVertically(old(b.Picture())) else old(b.Picture())
    ensures PaddingKept(b)
  {
    if !memory { return false; }
    for i := 0 to b.h / 2
      invariant forall y, x :: 0 <= y < b.h && 0 <= x < b.cells.Length1 ==>
        b.cells[y, x] ==
          if x < b.w && (y < i || b.h - 1 - y < i) then old(b.cells[b.h - 1 - y, x]) else old(b.cells[y, x])
    {
      SwapRows(b, i, b.h - 1 - i);
    }
    SamePicture(b.Picture(), FlippedVertically(old(b.Picture())), b.w);
    return true;
  }

  /** Turns the picture's part of one row around, from both ends. */
  method ReverseRow<P>(b: Bitmap<P>, y: nat)
    requires b.Valid() && y < b.h
    modifies b.cells
    ensures forall v, x :: 0 <= v < b.h && 0 <= x < b.cells.Length1 ==>
      b.cells[v, x] == if v == y && x < b.w then old(b.cells[v, b.w - 1 - x]) else old(b.cells[v, x])
  {
    var left, right := 0, b.w - 1;
    while left < right
      invariant 0 <= left && left + right == b.w - 1 && left <= right + 1
      invariant forall v, x :: 0 <= v < b.h && 0 <= x < b.cells.Length1 ==>
        b.cells[v, x] ==
          if v == y && x < b.w && (x < left || x > right) then old(b.cells[v, b.w - 1 - x]) else old(b.cells[v, x])
    {
      b.cells[y, left], b.cells[y, right] := b.cells[y, right], b.cells[y, left];
      left, right := left + 1, right - 1;
    }
  }

  /** Left to right in place. */
  method FlipHorizontal<P>(b: Bitmap<P>)
    requires b.Valid()
    modifies b.cells
    ensures b.Picture() == FlippedHorizontally(old(b.Picture())) && PaddingKept(b)
  {
    for y := 0 to b.h
      invariant forall v, x :: 0 <= v < b.h && 0 <= x < b.cells.Length1 ==>
        b.cells[v, x] == if v < y && x < b.w then old(b.cells[v, b.w - 1 - x]) else old(b.cells[v, x])
    {
      ReverseRow(b, y);
    }
    SamePicture(b.Picture(), FlippedHorizontally(old(b.Picture())), b.w);
  }
}
