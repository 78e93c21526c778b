// The search for an image's content: windows of grey values, the edge detector
// over them, and the scans that make up the whole search.

module ContentSearch {
  import opened Numbers
  import opened Options
  import opened EdgeDetection
  import opened Memory
  import opened ScanWindows
  import opened ContentScan
  import opened ContentRectangle
  import opened BitmapTransform

  /** The brightness of a pixel's first three bytes, on a scale of 2040 to a byte's one. */
  function Luma(p: seq<byte>): (luma: nat)
    requires |p| >= 3
    ensures luma <= 2040 * 255
  {
    var a: seq<int> := p;
    233 * a[0] + 1197 * a[1] + 610 * a[2]
  }

  /** The grey value of a pixel's bytes; transparent pixels are darker, rounded up. */
  function Grey(effective: Format, p: seq<byte>): byte
    requires |p| == BytesPerPixel(effective)
  {
    match effective
    case Bgra32 => Min((Times(Luma(p), p[3]) + 524288 - 1) / 524288, 255)
    case Bgr24 => Luma(p) / 2048
    case Bgr32 => Luma(p) / 2048
    case Gray8 => p[0]
  }

  /** Where cell x of row y lies. */
  function At(y: nat, rowLength: nat, x: nat): nat {
    Times(y, rowLength) + x
  }

  lemma {:induction false} PixelStored(length: nat, w: nat, h: nat, stride: nat, bytesPerPixel: nat, x: nat, y: nat)
    requires Stored(length, w, h, stride, bytesPerPixel) && x < w && y < h
    ensures At(y, stride, Times(x, bytesPerPixel)) + bytesPerPixel <= length
  {
    Monotone(y, h - 1, stride);
    Monotone(x + 1, w, bytesPerPixel);
    Distributes(x, 1, bytesPerPixel);
  }

  function GreysOf(pixels: seq<byte>, w: nat, h: nat, stride: nat, effective: Format): (g: Greys)
    requires Stored(|pixels|, w, h, stride, BytesPerPixel(effective))
    ensures Sized(g, w, h)
  {
    seq(h, y requires 0 <= y < h => seq(w, x requires 0 <= x < w => GreyAt(pixels, w, h, stride, effective, x, y)))
  }

  function GreyAt(pixels: seq<byte>, w: nat, h: nat, stride: nat, effective: Format, x: nat, y: nat): byte
    requires Stored(|pixels|, w, h, stride, BytesPerPixel(effective)) && x < w && y < h
  {
    var bytesPerPixel := BytesPerPixel(effective);
    PixelStored(|pixels|, w, h, stride, bytesPerPixel, x, y);
    var at := At(y, stride, Times(x, bytesPerPixel));
    Grey(effective, pixels[at..at + bytesPerPixel])
  }

  /** The buffer holds a window's grey values, row by row; those of its first rows and the first columns of the next. */
  ghost predicate BufferHolds(buf: seq<byte>, g: Greys, w: nat, h: nat, win: Window, rows: nat, columns: nat)
    requires Sized(g, w, h) && Sound(win, w, h)
  {
    forall y: nat, x: nat :: y < win.h && x < win.w && (y < rows || (y == rows && x < columns)) ==>
      At(y, win.w, x) < |buf| && buf[At(y, win.w, x)] == g[win.y + y][win.x + x]
  }

  lemma {:induction false} CellInBuffer(win: Window, w: nat, h: nat, x: nat, y: nat)
    requires Sound(win, w, h) && x < win.w && y < win.h
    ensures At(y, win.w, x) < BUFFER_SIZE
  {
    Monotone(y + 1, win.h, win.w);
    Distributes(y, 1, win.w);
    assert Times(win.h, win.w) == win.w * win.h;
  }

  lemma {:induction false} CellsApart(width: nat, x: nat, y: nat, u: nat, v: nat)
    requires x < width && u < width && At(y, width, x) == At(v, width, u)
    ensures x == u && y == v
  {
    PlaceOf(y, x, width);
    PlaceOf(v, u, width);
  }

  /** One more cell filled. */
  lemma {:induction false} NextCell(before: seq<byte>, after: seq<byte>, g: Greys, w: nat, h: nat, win: Window, y: nat,
                                    x: nat)
    requires Sized(g, w, h) && Sound(win, w, h) && y < win.h && x < win.w && |before| == BUFFER_SIZE
    requires BufferHolds(before, g, w, h, win, y, x)
    requires At(y, win.w, x) < |before| && after == before[At(y, win.w, x) := g[win.y + y][win.x + x]]
    ensures BufferHolds(after, g, w, h, win, y, x + 1)
  {
    hide Times, At;
    forall v: nat, u: nat | v < win.h && u < win.w && At(v, win.w, u) == At(y, win.w, x) ensures v == y && u == x {
      CellsApart(win.w, x, y, u, v);
    }
  }

  lemma {:induction false} RowFilled(buf: seq<byte>, g: Greys, w: nat, h: nat, win: Window, y: nat)
    requires Sized(g, w, h) && Sound(win, w, h) && y < win.h
    ensures BufferHolds(buf, g, w, h, win, y, win.w) ==> BufferHolds(buf, g, w, h, win, y + 1, 0)
  {
    hide Times, At;
  }

  lemma {:induction false} GreyThere(pixels: seq<byte>, w: nat, h: nat, stride: nat, effective: Format, x: nat, y: nat)
    requires Stored(|pixels|, w, h, stride, BytesPerPixel(effective)) && x < w && y < h
    ensures var at := At(y, stride, Times(x, BytesPerPixel(effective)));
            && at + BytesPerPixel(effective) <= |pixels|
            && GreysOf(pixels, w, h, stride, effective)[y][x] ==
              Grey(effective, pixels[at..at + BytesPerPixel(effective)])
  {
    PixelStored(|pixels|, w, h, stride, BytesPerPixel(effective), x, y);
  }

  /** The first centre, and the step from a row's last centre to the next row's first. */
  lemma {:induction false} AtFirst(y: nat, n: nat)
    requires n >= 2
    ensures At(1, n, 1) == n + 1 && At(y, n, n - 1) + 2 == At(y + 1, n, 1)
  {}

  lemma {:induction false} AtNext(y: nat, rowLength: nat, x: nat, n: nat)
    ensures At(y, rowLength, x + n) == At(y, rowLength, x) + n
  {}

  /** Compares the neighbours in a matrix, along its rows and then its columns. */
  method LocateEdges(m: Matrix, threshold: nat) returns (b: Box)
    ensures b == Local(m, threshold)
  {
    hide AlongRow, AlongColumn;
    b := EdgeDetection.Box(2, 1, 2, 1);
    for my: nat := 0 to 3
      invariant b == Rows(m, threshold, my)
    {
      b := CompareAlongRow(m, threshold, b, my);
    }
    for mx: nat := 0 to 3
      invariant b == Columns(m, threshold, mx)
    {
      b := CompareAlongColumn(m, threshold, b, mx);
    }
  }

  method CompareAlongRow(m: Matrix, threshold: nat, box: Box, my: nat) returns (b: Box)
    requires my < 3
    ensures b == AlongRow(m, threshold, box, my)
  {
    b := box;
    var edgeFound := false;
    if Abs(m[my * 3] as int - m[my * 3 + 1] as int) > threshold {
      b := b.(minX := Min(b.minX, 1), maxX := Max(b.maxX, 1));
      edgeFound := true;
    }
    if Abs(m[my * 3 + 1] as int - m[my * 3 + 2] as int) > threshold {
      b := b.(minX := Min(b.minX, 2), maxX := Max(b.maxX, 2));
      edgeFound := true;
    }
    if edgeFound {
      b := b.(minY := Min(b.minY, my), maxY := Max(b.maxY, my + 1));
    }
  }

  method CompareAlongColumn(m: Matrix, threshold: nat, box: Box, mx: nat) returns (b: Box)
    requires mx < 3
    ensures b == AlongColumn(m, threshold, box, mx)
  {
    b := box;
    var edgeFound := false;
    if Abs(m[mx] as int - m[mx + 3] as int) > threshold {
      b := b.(minY := Min(b.minY, 1), maxY := Max(b.maxY, 1));
      edgeFound := true;
    }
    if Abs(m[mx + 3] as int - m[mx + 6] as int) > threshold {
      b := b.(minY := Min(b.minY, 2), maxY := Max(b.maxY, 2));
      edgeFound := true;
    }
    if edgeFound {
      b := b.(minX := Min(b.minX, mx), maxX := Max(b.maxX, mx + 1));
    }
  }

  /** The nine cells around a cell are the neighbourhood of its pixel. */
  lemma {:induction false} CellsAround(buf: seq<byte>, g: Greys, w: nat, h: nat, win: Window, x: nat, y: nat)
    requires Sized(g, w, h) && Sound(win, w, h) && BufferHolds(buf, g, w, h, win, win.h, 0)
    requires 1 <= x < win.w - 1 && 1 <= y < win.h - 1
    ensures var n, ix := win.w, At(y, win.w, x);
            && 0 <= ix - n - 1 && ix + n + 1 < |buf| && Inner(w, h, win.x + x, win.y + y)
            && [buf[ix - n - 1], buf[ix - n], buf[ix - n + 1], buf[ix - 1], buf[ix], buf[ix + 1],
                buf[ix + n - 1], buf[ix + n], buf[ix + n + 1]] == Around(g, w, h, win.x + x, win.y + y)
  {
    hide Times, BufferHolds;
    Distributes(y - 1, 1, win.w);
    Distributes(y, 1, win.w);
    ThreeCells(buf, g, w, h, win, x, y - 1);
    ThreeCells(buf, g, w, h, win, x, y);
    ThreeCells(buf, g, w, h, win, x, y + 1);
  }

  lemma {:induction false} ThreeCells(buf: seq<byte>, g: Greys, w: nat, h: nat, win: Window, x: nat, y: nat)
    requires Sized(g, w, h) && Sound(win, w, h) && BufferHolds(buf, g, w, h, win, win.h, 0)
    requires 1 <= x < win.w - 1 && y < win.h
    ensures var ix, row := Times(y, win.w) + x, g[win.y + y];
            && ix + 1 < |buf| && buf[ix - 1] == row[win.x + x - 1] && buf[ix] == row[win.x + x]
              && buf[ix + 1] == row[win.x + x + 1]
  {
    hide Times;
    assert At(y, win.w, x - 1) == Times(y, win.w) + x - 1;
    assert At(y, win.w, x) == Times(y, win.w) + x;
    assert At(y, win.w, x + 1) == Times(y, win.w) + x + 1;
  }

  /** A region of the image cut into windows that fit it and the buffer. */
  predicate Gridded(r: Region, ww: nat, wh: nat, w: nat, h: nat) {
    && 0 <= r.x1 && r.x2 <= w && 0 <= r.y1 && r.y2 <= h
    && 3 <= ww <= r.x2 - r.x1 && 3 <= wh <= r.y2 - r.y1 && ww * wh <= BUFFER_SIZE
  }

  /** Makes a range at least this long, a step to either side at a time, as far as the limits allow. */
  method Widen(lo: int, hi: int, least: nat, limit: nat) returns (a: int, b: int)
    requires 0 <= lo < hi <= limit
    ensures 0 <= a <= lo && hi <= b <= limit && (b - a >= least || (a == 0 && b == limit))
    ensures (a, b) == Widened(lo, hi, least, limit)
  {
    a, b := lo, hi;
    while b - a < least && (a > 0 || b < limit)
      invariant 0 <= a <= lo && hi <= b <= limit && Widened(a, b, least, limit) == Widened(lo, hi, least, limit)
      decreases limit - (b - a)
    {
      a := if a > 0 then a - 1 else 0;
      b := Min(limit, b + 1);
    }
  }

  lemma {:induction false} MakeGrid(r: Region, ww: nat, wh: nat, w: nat, h: nat)
    requires 0 <= r.x1 && r.x2 <= w && 0 <= r.y1 && r.y2 <= h && 3 <= ww <= r.x2 - r.x1 && 3 <= wh <= r.y2 - r.y1
    requires ww * wh <= BUFFER_SIZE
    ensures Gridded(r, ww, wh, w, h)
  {}

  lemma {:induction false} GridCell(r: Region, ww: nat, wh: nat, row: nat, column: nat)
    requires ww >= 3 && wh >= 3 && r.x1 < r.x2 && r.y1 < r.y2
    requires row < Steps(r.y2 - r.y1, wh - 2) && column < Steps(r.x2 - r.x1, ww - 2)
    ensures InGrid(r, ww, wh, row, column)
  {
    StepsReach(r.y2 - r.y1, wh - 2, row);
    StepsReach(r.x2 - r.x1, ww - 2, column);
  }

  class SearchInfo {
    const w: nat
    const h: nat
    const stride: nat
    const effective: Format
    const pixels: seq<byte>
    const threshold: nat
    const buf: array<byte>
    var minX: nat
    var maxX: nat
    var minY: nat
    var maxY: nat
    var bufX: nat
    var bufY: nat
    var bufW: nat
    var bufH: nat

    function Box(): Box
      reads `minX, `maxX, `minY, `maxY
    {
      EdgeDetection.Box(minX, maxX, minY, maxY)
    }

    function Win(): Window
      reads `bufX, `bufY, `bufW, `bufH
    {
      Window(bufX, bufY, bufW, bufH)
    }

    ghost predicate Valid()
      reads `minX, `maxX, `minY, `maxY
    {
      && w >= 3 && h >= 3 && Stored(|pixels|, w, h, stride, BytesPerPixel(effective))
      && buf.Length == BUFFER_SIZE && InImage(Box(), w, h)
    }

    ghost function Image(): (g: Greys)
      requires Stored(|pixels|, w, h, stride, BytesPerPixel(effective))
      ensures Sized(g, w, h)
    {
      GreysOf(pixels, w, h, stride, effective)
    }

    /** The image as the search sees it. */
    ghost function Scene(): ContentScan.Scene
      requires Stored(|pixels|, w, h, stride, BytesPerPixel(effective))
    {
      Search(Image(), w, h, threshold)
    }

    constructor (w: nat, h: nat, stride: nat, effective: Format, pixels: seq<byte>, threshold: nat)
      requires w >= 3 && h >= 3 && Stored(|pixels|, w, h, stride, BytesPerPixel(effective))
      ensures Valid() && fresh(buf) && Box() == EdgeDetection.Box(w, 0, h, 0)
      ensures this.w == w && this.h == h && this.stride == stride && this.effective == effective
      ensures this.pixels == pixels && this.threshold == threshold
    {
      this.w, this.h, this.stride, this.effective, this.pixels, this.threshold :=
        w, h, stride, effective, pixels, threshold;
      buf := new byte[BUFFER_SIZE](_ => 0);
      minX, maxX, minY, maxY := w, 0, h, 0;
      bufX, bufY, bufW, bufH := 0, 0, 0, 0;
    }

    /** Fills the buffer with the window's grey values; a window inside the image is never refused. */
    method FillBuffer() returns (ok: bool)
      requires Valid() && Sound(Win(), w, h)
      modifies buf
      ensures ok && BufferHolds(buf[..], Image(), w, h, Win(), bufH, 0)
    {
      var bytesPerPixel := BytesPerPixel(effective);
      WindowStored(|pixels|, w, h, stride, bytesPerPixel, Win());
      var accessed := Times(bufY + bufH - 1, stride) + Times(bufW + bufX, bytesPerPixel);
      if accessed > Times(h, stride) { return false; }
      var remnant: nat := stride - Times(bufW, bytesPerPixel);
      var at, bufIx := Times(bufY, stride) + Times(bufX, bytesPerPixel), 0;
      for y: nat := 0 to bufH
        invariant at == At(bufY + y, stride, Times(bufX, bytesPerPixel)) && bufIx == At(y, bufW, 0)
        invariant BufferHolds(buf[..], Image(), w, h, Win(), y, 0)
      {
        at, bufIx := FillRow(y, at, bufIx, bytesPerPixel);
        Distributes(y, 1, bufW);
        Distributes(bufY + y, 1, stride);
        at := at + remnant;
      }
      return true;
    }

    method FillRow(y: nat, start: nat, first: nat, bytesPerPixel: nat) returns (at: nat, bufIx: nat)
      requires Valid() && Sound(Win(), w, h) && y < bufH && bytesPerPixel == BytesPerPixel(effective)
      requires start == At(bufY + y, stride, Times(bufX, bytesPerPixel)) && first == At(y, bufW, 0)
      requires BufferHolds(buf[..], Image(), w, h, Win(), y, 0)
      modifies buf
      ensures at == start + Times(bufW, bytesPerPixel) && bufIx == first + bufW
      ensures BufferHolds(buf[..], Image(), w, h, Win(), y + 1, 0)
    {
      hide *;
      WinIs();
      ghost var win, g := Win(), Image();
      Distributes(0, 0, bytesPerPixel);
      at, bufIx := start, first;
      for x: nat := 0 to bufW
        invariant at == At(bufY + y, stride, Times(bufX + x, bytesPerPixel)) == start + Times(x, bytesPerPixel)
        invariant bufIx == At(y, bufW, x) == first + x && win == Win() && g == Image() && buf.Length == BUFFER_SIZE
        invariant BufferHolds(buf[..], g, w, h, win, y, x)
      {
        GreyThere(pixels, w, h, stride, effective, bufX + x, bufY + y);
        CellInBuffer(win, w, h, x, y);
        ghost var before := buf[..];
        buf[bufIx] := Grey(effective, pixels[at..at + bytesPerPixel]);
        NextCell(before, buf[..], g, w, h, win, y, x);
        Distributes(bufX + x, 1, bytesPerPixel);
        Distributes(x, 1, bytesPerPixel);
        AtNext(bufY + y, stride, Times(bufX + x, bytesPerPixel), bytesPerPixel);
        AtNext(y, bufW, x, 1);
        at, bufIx := at + bytesPerPixel, bufIx + 1;
      }
      RowFilled(buf[..], g, w, h, win, y);
    }

    /** The edge detector over the window in the buffer: the box takes in every detection centred in it. */
    method SobelScharrDetect()
      requires Valid() && Sound(Win(), w, h) && BufferHolds(buf[..], Image(), w, h, Win(), bufH, 0)
      modifies `minX, `maxX, `minY, `maxY
      ensures Valid() && Box() == RowsScanned(Scene(), old(Box()), Win(), bufH - 1)
    {
      hide *;
      WinIs();
      SceneIs();
      ghost var win, g, s, before := Win(), Image(), Scene(), Box();
      var n := bufW;
      var bufIx := n + 1;
      NothingScanned(s, before, win, 1);
      AtFirst(1, n);
      for y: nat := 1 to bufH - 1
        invariant Valid() && bufIx == At(y, n, 1) && Box() == RowsScanned(s, before, win, y)
      {
        ghost var middle := Box();
        NothingScanned(s, middle, win, y);
        for x: nat := 1 to n - 1
          invariant Valid() && bufIx == At(y, n, x) && Box() == RowScanned(s, middle, win, y, x)
        {
          CellsAround(buf[..], g, w, h, win, x, y);
          var m: Matrix :=
            [buf[bufIx - n - 1], buf[bufIx - n], buf[bufIx - n + 1], buf[bufIx - 1], buf[bufIx], buf[bufIx + 1],
                            buf[bufIx + n - 1], buf[bufIx + n], buf[bufIx + n + 1]];
          Examine(m, x, y);
          NextScanned(s, middle, win, y, x);
          AtNext(y, n, x, 1);
          bufIx := bufIx + 1;
        }
        AtFirst(y, n);
        NextRowScanned(s, before, win, y);
        bufIx := bufIx + 2;
      }
    }

    /** Grows the box by the edges around one pixel exactly when its response exceeds the threshold. */
    method Examine(m: Matrix, x: nat, y: nat)
      requires Valid() && Sound(Win(), w, h) && 1 <= x < bufW - 1 && 1 <= y < bufH - 1
      requires m == Around(Image(), w, h, bufX + x, bufY + y)
      modifies `minX, `maxX, `minY, `maxY
      ensures Valid() && Box() == Examined(Scene(), old(Box()), bufX + x, bufY + y)
      ensures Response(m) <= threshold ==> Box() == old(Box())
      ensures Response(m) > threshold ==>
        Box() == Join(old(Box()), EdgesAt(Image(), w, h, threshold, bufX + x, bufY + y))
    {
      hide Local, Response, Around, Grown, Stored;
      ghost var before := Box();
      LocalBounds(m, threshold);
      if Response(m) > threshold {
        var edges := LocateEdges(m, threshold);
        var localMinX, localMaxX := edges.minX + (bufX + x - 1), edges.maxX + (bufX + x - 1);
        var localMinY, localMaxY := edges.minY + (bufY + y - 1), edges.maxY + (bufY + y - 1);
        if localMinX < minX { minX := localMinX; }
        if localMaxX > maxX { maxX := localMaxX; }
        if localMinY < minY { minY := localMinY; }
        if localMaxY > maxY { maxY := localMaxY; }
      }
    }

    /** Places the window for a cell of the grid over a region. */
    method PlaceWindow(r: Region, ww: nat, wh: nat, row: nat, column: nat)
      requires Gridded(r, ww, wh, w, h) && InGrid(r, ww, wh, row, column)
      modifies `bufX, `bufY, `bufW, `bufH
      ensures Win() == Default(r, ww, wh, row, column)
      ensures 3 <= bufW <= ww && 3 <= bufH <= wh
    {
      hide Times;
      bufX := r.x1 + Times(column, ww - 2);
      bufY := r.y1 + Times(row, wh - 2);
      bufW := Min(Max(3, r.x2 - bufX), ww);
      bufH := Min(Max(3, r.y2 - bufY), wh);
    }

    /** Cuts the window down to what lies beyond the known sides; false when nothing does. */
    method NarrowWindow() returns (scan: bool)
      requires bufW >= 3 && bufH >= 3
      modifies `bufX, `bufY, `bufW, `bufH
      ensures scan <==> !(ExcludedX(Box(), old(Win())) && ExcludedY(Box(), old(Win())))
      ensures scan ==> Win() == Narrowed(Box(), old(Win()))
      ensures scan ==> 3 <= bufW <= old(bufW) && 3 <= bufH <= old(bufH)
    {
      var bufX2, bufY2 := bufX + bufW, bufY + bufH;
      var excludedX := minX < bufX && maxX > bufX2;
      var excludedY := minY < bufY && maxY > bufY2;
      if excludedX && excludedY { return false; }
      if excludedY && minX < bufX2 && bufX2 < maxX {
        bufW := Max(3, minX - bufX);
      } else if excludedY && maxX > bufX && bufX > minX {
        bufX := Min(bufX2 - 3, maxX);
        bufW := bufX2 - bufX;
      }
      if excludedX && minY < bufY2 && bufY2 < maxY {
        bufH := Max(3, minY - bufY);
      } else if excludedX && maxY > bufY && bufY > minY {
        bufY := Min(bufY2 - 3, maxY);
        bufH := bufY2 - bufY;
      }
      return true;
    }

    /** Moves the window back inside the image. */
    method ShiftWindow()
      modifies `bufX, `bufY, `bufW, `bufH
      ensures Win() == Shifted(old(Win()), w, h)
    {
      if bufY + bufH > h {
        if bufH <= h {
          bufY := h - bufH;
        } else {
          bufY, bufH := 0, h;
        }
      }
      if bufX + bufW > w {
        if bufW <= w {
          bufX := w - bufW;
        } else {
          bufX, bufW := 0, w;
        }
      }
    }

    /** Scans one window of the grid; it is never refused. */
    method ScanWindow(r: Region, ww: nat, wh: nat, row: nat, column: nat) returns (ok: bool)
      requires Valid() && ww >= 3 && wh >= 3 && Gridded(r, ww, wh, w, h) && InGrid(r, ww, wh, row, column)
      modifies this, buf
      ensures ok && Valid() && Box() == AfterWindow(Scene(), old(Box()), Default(r, ww, wh, row, column))
    {
      hide *;
      SceneIs();
      ghost var d, before, s := Default(r, ww, wh, row, column), Box(), Scene();
      PlaceWindow(r, ww, wh, row, column);
      var scan := NarrowWindow();
      AfterWindowIs(s, before, d);
      if !scan { return true; }
      PlannedSound(r, ww, wh, row, column);
      ShiftWindow();
      var filled := FillBuffer();
      if !filled { return false; }
      WinIs();
      SobelScharrDetect();
      return true;
    }

    /** Scans the region seen from an edge; it never fails. */
    method CheckRegion(edge: int, xa: real, xb: real, ya: real, yb: real) returns (ok: bool)
      requires Valid() && xa <= xb && ya <= yb
      modifies this, buf
      ensures ok && Valid() && Box() == AfterRegion(Scene(), old(Box()), ScanRegion(edge, xa, xb, ya, yb))
    {
      hide *;
      ValidImage();
      SceneIs();
      ghost var s, before, region := Scene(), Box(), ScanRegion(edge, xa, xb, ya, yb);
      RectangleIs(s, before, region);
      var r := Percents(w, h, xa, xb, ya, yb);
      r := Snap(r, edge);
      AfterRegionIs(s, before, region);
      if r.x1 == r.x2 || r.y1 == r.y2 { return true; }
      var y1, y2 := Widen(r.y1, r.y2, LeastHeight(edge), h);
      var x1, x2 := Widen(r.x1, r.x2, LeastWidth(edge), w);
      var wide := Region(x1, x2, y1, y2);
      WideEnoughIs(s, r, edge);
      WindowsFitBuffer(x2 - x1, y2 - y1, edge);
      var windowWidth := WindowWidth(x2 - x1, edge);
      var windowHeight := WindowHeight(y2 - y1, windowWidth);
      MakeGrid(wide, windowWidth, windowHeight, w, h);
      AfterGridIs(s, before, wide, edge, windowWidth, windowHeight);
      ScanGrid(wide, windowWidth, windowHeight);
      return true;
    }

    method Snap(r: Region, edge: int) returns (s: Region)
      requires InImage(Box(), w, h)
      ensures s == Snapped(r, edge, Box(), w, h)
    {
      s := r;
      if edge == 4 { s := s.(x1 := 0, x2 := Min(s.x2, minX)); }
      if edge == 2 { s := s.(x1 := Max(s.x1, maxX), x2 := w); }
      if edge == 1 { s := s.(y1 := 0, y2 := Min(s.y2, minY)); }
      if edge == 3 { s := s.(y1 := Max(s.y1, maxY), y2 := h); }
    }

    /** All windows of the grid, row by row. */
    method ScanGrid(r: Region, ww: nat, wh: nat)
      requires Valid() && ww >= 3 && wh >= 3 && Gridded(r, ww, wh, w, h) && r.x1 < r.x2 && r.y1 < r.y2
      modifies this, buf
      ensures Valid() && Box() == AfterRows(Scene(), old(Box()), r, ww, wh, Steps(r.y2 - r.y1, wh - 2))
    {
      hide *;
      SceneIs();
      ghost var s, before := Scene(), Box();
      NoRowsYet(s, before, r, ww, wh);
      var verticalWindows := Steps(r.y2 - r.y1, wh - 2);
      for row: nat := 0 to verticalWindows
        invariant Valid() && Box() == AfterRows(s, before, r, ww, wh, row)
      {
        ScanGridRow(r, ww, wh, row);
        NextAfterRows(s, before, r, ww, wh, row);
      }
    }

    /** One row of the grid. */
    method ScanGridRow(r: Region, ww: nat, wh: nat, row: nat)
      requires Valid() && ww >= 3 && wh >= 3 && Gridded(r, ww, wh, w, h) && r.x1 < r.x2 && r.y1 < r.y2
      requires row < Steps(r.y2 - r.y1, wh - 2)
      modifies this, buf
      ensures Valid() && Box() == AfterRow(Scene(), old(Box()), r, ww, wh, row, Steps(r.x2 - r.x1, ww - 2))
    {
      hide *;
      SceneIs();
      ghost var s, before := Scene(), Box();
      NoColumnsYet(s, before, r, ww, wh, row);
      var horizontalWindows := Steps(r.x2 - r.x1, ww - 2);
      for column: nat := 0 to horizontalWindows
        invariant Valid() && Box() == AfterRow(s, before, r, ww, wh, row, column)
      {
        GridCell(r, ww, wh, row, column);
        var ok := ScanWindow(r, ww, wh, row, column);
        NextAfterRow(s, before, r, ww, wh, row, column);
      }
    }

    lemma {:induction false} PlannedSound(r: Region, ww: nat, wh: nat, row: nat, column: nat)
      requires ww >= 3 && wh >= 3 && Gridded(r, ww, wh, w, h) && InGrid(r, ww, wh, row, column)
      requires var d := Default(r, ww, wh, row, column); !(ExcludedX(Box(), d) && ExcludedY(Box(), d))
      ensures Sound(Shifted(Narrowed(Box(), Default(r, ww, wh, row, column)), w, h), w, h)
    {
      hide Default, Narrowed, Shifted, Sound, ExcludedX, ExcludedY;
      PlannedWindowSound(r, ww, wh, row, column, Box(), w, h);
    }

    lemma {:induction false} SceneIs()
      requires Valid()
      ensures w >= 3 && h >= 3 && Stored(|pixels|, w, h, stride, BytesPerPixel(effective))
      ensures Scene() == Search(Image(), w, h, threshold)
    {}

    lemma {:induction false} ValidImage()
      requires Valid()
      ensures w >= 3 && h >= 3 && Stored(|pixels|, w, h, stride, BytesPerPixel(effective)) && InImage(Box(), w, h)
    {}

    lemma {:induction false} WinIs()
      requires Valid() && Sound(Win(), w, h)
      ensures Win().x == bufX && Win().y == bufY && Win().w == bufW && Win().h == bufH
      ensures 3 <= bufW && 3 <= bufH && bufX + bufW <= w && bufY + bufH <= h && buf.Length == BUFFER_SIZE
      ensures Stored(|pixels|, w, h, stride, BytesPerPixel(effective))
        && Image() == GreysOf(pixels, w, h, stride, effective)
    {}
  }

  /** A window inside the image stays below the size of its memory, and its rows are no longer than the stride. */
  lemma {:induction false} WindowStored(length: nat, w: nat, h: nat, stride: nat, bytesPerPixel: nat, win: Window)
    requires Stored(length, w, h, stride, bytesPerPixel) && Sound(win, w, h)
    ensures Times(win.y + win.h - 1, stride) + Times(win.w + win.x, bytesPerPixel) <= Times(h, stride)
    ensures Times(win.w, bytesPerPixel) <= stride
  {
    Monotone(win.y + win.h, h, stride);
    Distributes(win.y + win.h - 1, 1, stride);
    Monotone(win.w + win.x, w, bytesPerPixel);
    Monotone(win.w, w, bytesPerPixel);
  }

  /** Scans one region after the other; it never fails. */
  method CheckRegions(info: SearchInfo, regions: seq<ScanRegion>) returns (ok: bool)
    requires info.Valid() && Forward(regions)
    modifies info, info.buf
    ensures ok && info.Valid() && info.Box() == AfterRegions(info.Scene(), old(info.Box()), regions)
  {
    hide *;
    info.SceneIs();
    info.ValidImage();
    ghost var s, before := SceneOf(info), info.Box();
    NoRegionsYet(s, before, regions);
    for i := 0 to |regions|
      invariant info.Valid() && Forward(regions[..i]) && info.Box() == AfterRegions(s, before, regions[..i])
    {
      NextAfterRegions(s, before, regions, i);
      ok := info.CheckRegion(regions[i].edge, regions[i].xa, regions[i].xb, regions[i].ya, regions[i].yb);
      if !ok { return false; }
    }
    AllRegions(regions);
    return true;
  }

  ghost function SceneOf(info: SearchInfo): (s: Scene)
    requires info.Valid()
    reads info
    ensures s == info.Scene() && s.w == info.w && s.h == info.h
  {
    info.Scene()
  }

  /** The box of an image's content, a function of its grey values. */
  method DetectContent(w: nat, h: nat, stride: nat, effective: Format, pixels: seq<byte>, threshold: nat, memory: bool)
    returns (rect: Option<Box>)
    requires Stored(|pixels|, w, h, stride, BytesPerPixel(effective))
    ensures rect.None? <==> w >= 3 && h >= 3 && !memory
    ensures rect.Some? ==> rect.value == Content(Search(GreysOf(pixels, w, h, stride, effective), w, h, threshold))
  {
    if w < 3 || h < 3 { return Some(EdgeDetection.Box(0, w, 0, h)); }
    if !memory { return None; }
    var info := new SearchInfo(w, h, stride, effective, pixels, threshold);
    var box := SearchAll(info);
    if box.minX == w && box.maxX == 0 && box.minY == h && box.maxY == 0 {
      box := EdgeDetection.Box(0, w, 0, h);
    }
    rect := Some(box);
  }

  /** The strips, and then either everything or the first four strips again. */
  method SearchAll(info: SearchInfo) returns (box: Box)
    requires info.Valid() && info.Box() == Empty(info.Scene())
    modifies info, info.buf
    ensures info.Valid() && box == info.Box() == Found(info.Scene())
  {
    hide *;
    StripsForward();
    info.SceneIs();
    info.ValidImage();
    ghost var s := SceneOf(info);
    EmptyInImage(s);
    AfterStripsIs(s);
    var ok := CheckRegions(info, QUICK_STRIPS);
    var separately := ToScanSeparately(info);
    EverythingIs(s);
    FoundIs(s);
    if separately > Times(info.h, info.w) {
      ok := info.CheckRegion(0, 0.0, 1.0, 0.0, 1.0);
    } else {
      ok := CheckRegions(info, QUICK_STRIPS[..4]);
    }
    box := info.Box();
  }

  method ToScanSeparately(info: SearchInfo) returns (area: nat)
    requires info.Valid()
    ensures InImage(info.Box(), info.w, info.h) && area == AreaOutside(info.Scene(), info.Box())
  {
    area := Times(info.minX, info.h) + Times(info.minY, info.w) + Times(info.w - info.maxX, info.h)
            + Times(info.h - info.maxY, info.h);
  }

  // ---------- a picture of a rectangle ----------

  /** Shares of blue, green and red in a grey, and what transparency leaves of white. */
  lemma {:induction false} GreyIs(a: byte)
    ensures Grey(Bgr24, [255, 0, 0]) == 29 && Grey(Bgr24, [0, 255, 0]) == 149 && Grey(Bgr24, [0, 0, 255]) == 75
    ensures Grey(Bgr24, [255, 255, 255]) == 254 && Grey(Bgr32, [255, 255, 255, a]) == 254
    ensures Grey(Bgra32, [255, 255, 255, a]) == if a <= 128 then a else a - 1
    ensures Grey(Bgra32, [0, 0, 0, a]) == 0 && Grey(Gray8, [a]) == a
  {}

  /** The bytes of one pixel. */
  function PixelBytes(pixels: seq<byte>, w: nat, h: nat, stride: nat, effective: Format, x: nat, y: nat): (p: seq<byte>)
    requires Stored(|pixels|, w, h, stride, BytesPerPixel(effective)) && x < w && y < h
    ensures |p| == BytesPerPixel(effective)
  {
    PixelStored(|pixels|, w, h, stride, BytesPerPixel(effective), x, y);
    var at := At(y, stride, Times(x, BytesPerPixel(effective)));
    pixels[at..at + BytesPerPixel(effective)]
  }

  /** In a picture of one colour within a box and another around it, whose greys lie further apart than the threshold,
      the content is the box, when it takes in the middle and keeps two pixels away from the picture's sides. */
  lemma {:induction false} PictureRectangle(pixels: seq<byte>, w: nat, h: nat, stride: nat, effective: Format,
                                            threshold: nat, box: Box, p: seq<byte>, q: seq<byte>)
    requires Stored(|pixels|, w, h, stride, BytesPerPixel(effective)) && |p| == |q| == BytesPerPixel(effective)
    requires 2 <= box.minX <= w / 2 < box.maxX <= w - 2 && 2 <= box.minY <= h / 2 < box.maxY <= h - 2
    requires forall y: nat, x: nat :: y < h && x < w ==>
      PixelBytes(pixels, w, h, stride, effective, x, y) == if InBox(box, x, y) then p else q
    requires Abs(Grey(effective, p) as int - Grey(effective, q) as int) > threshold
    ensures Content(Search(GreysOf(pixels, w, h, stride, effective), w, h, threshold)) == box
  {
    hide Grey, Content, Times, At;
    var s: Scene := Search(GreysOf(pixels, w, h, stride, effective), w, h, threshold);
    forall y, x | 0 <= y < h && 0 <= x < w
      ensures s.g[y][x] == if InBox(box, x, y) then Grey(effective, p) else Grey(effective, q)
    {
      assert PixelBytes(pixels, w, h, stride, effective, x, y) == if InBox(box, x, y) then p else q;
    }
    RectangleFound(s, box, Grey(effective, p), Grey(effective, q));
  }
}
