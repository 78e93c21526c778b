// Which rectangles the content search scans: a region is widened, cut into
// overlapping windows, and each window narrowed by what is known already.

module ScanWindows {
  import opened Numbers
  import opened EdgeDetection
  import opened Memory

  const BUFFER_SIZE: nat := 2048

  /** The square root of the buffer's size, rounded up. */
  const SQUARE_SIDE: nat := 46

  lemma {:induction false} SquareSideIsRoot()
    ensures (SQUARE_SIDE - 1) * (SQUARE_SIDE - 1) < BUFFER_SIZE <= SQUARE_SIDE * SQUARE_SIDE
  {}

  /** The widest window for an edge; a search in all directions takes long ones. */
  function WindowWidth(w: nat, edge: int): nat {
    Min(w, if edge == 0 then BUFFER_SIZE / 7 else SQUARE_SIDE)
  }

  function WindowHeight(h: nat, windowWidth: nat): nat
    requires windowWidth > 0
  {
    if h <= BUFFER_SIZE / windowWidth then h else BUFFER_SIZE / windowWidth
  }

  /** Windows of a region at least 3 by 3 are at least 3 by 3 and fit the buffer. */
  lemma {:induction false} WindowsFitBuffer(w: nat, h: nat, edge: int)
    requires w >= 3 && h >= 3
    ensures var ww := WindowWidth(w, edge); var wh := WindowHeight(h, ww);
            3 <= ww <= w && 3 <= wh <= h && ww * wh <= BUFFER_SIZE
    ensures var ww := WindowWidth(w, edge); var wh := WindowHeight(h, ww);
            (ww == w || ww == (if edge == 0 then 292 else SQUARE_SIDE)) && (wh == h || ww * (wh + 1) > BUFFER_SIZE)
  {
    var ww := WindowWidth(w, edge);
    HighEnough(ww);
    AreaFits(WindowHeight(h, ww), ww);
    AreaFull(ww);
  }

  lemma {:induction false} AreaFull(ww: nat)
    requires ww >= 1
    ensures ww * (BUFFER_SIZE / ww + 1) > BUFFER_SIZE
  {}

  lemma {:induction false} HighEnough(ww: nat)
    requires 1 <= ww <= 292
    ensures 7 <= BUFFER_SIZE / ww
  {
    Multiples(BUFFER_SIZE / ww - 6, ww);
    assert (BUFFER_SIZE / ww - 6) * ww == BUFFER_SIZE / ww * ww - 6 * ww;
  }

  lemma {:induction false} Area(ww: nat, wh: nat)
    ensures Times(wh, ww) == ww * wh
  {}

  lemma {:induction false} AreaFits(wh: nat, ww: nat)
    requires ww >= 1 && wh <= BUFFER_SIZE / ww
    ensures ww * wh <= BUFFER_SIZE
  {
    hide Times;
    var most := BUFFER_SIZE / ww;
    Quotient(BUFFER_SIZE, ww);
    Monotone(wh, most, ww);
    Area(ww, wh);
  }

  /** How many steps of this size it takes to go this far. */
  function Steps(distance: nat, step: nat): nat
    requires step > 0
  {
    (distance + step - 1) / step
  }

  lemma {:induction false} StepsReach(distance: nat, step: nat, k: nat)
    requires step > 0
    ensures k < Steps(distance, step) <==> Times(k, step) < distance
  {
    var n := Steps(distance, step);
    assert n * step <= distance + step - 1 < n * step + step;
    if k < n {
      Monotone(k + 1, n, step);
      Distributes(k, 1, step);
    } else {
      Monotone(n, k, step);
    }
  }

  /** The region a search from an edge looks at: rows y1..y2 and columns x1..x2, cut at what is known. */
  datatype Region = Region(x1: int, x2: int, y1: int, y2: int)

  function Clamp(v: int, limit: nat): nat {
    if v < 0 then 0 else if v > limit then limit else v
  }

  /** A fraction of a length, and a pixel less. */
  function Start(a: real, n: nat): nat {
    Clamp((a * n as real).Floor - 1, n)
  }

  /** A fraction of a length, and a pixel more. */
  function End(b: real, n: nat): nat {
    Clamp(Ceiling(b * n as real) + 1, n)
  }

  /** From fractions of the image's size, a pixel more to either side. */
  function Percents(w: nat, h: nat, xa: real, xb: real, ya: real, yb: real): Region {
    Region(Start(xa, w), End(xb, w), Start(ya, h), End(yb, h))
  }

  function Snapped(r: Region, edge: int, box: Box, w: nat, h: nat): Region {
    if edge == 4 then Region(0, Min(r.x2, box.minX), r.y1, r.y2)
    else if edge == 2 then Region(Max(r.x1, box.maxX), w, r.y1, r.y2)
    else if edge == 1 then Region(r.x1, r.x2, 0, Min(r.y2, box.minY))
    else if edge == 3 then Region(r.x1, r.x2, Max(r.y1, box.maxY), h)
    else r
  }

  lemma {:induction false} ProductOrder(a: real, b: real, n: nat)
    requires a <= b
    ensures (a * n as real).Floor - 1 <= Ceiling(b * n as real) + 1
  {
    assert (b - a) * n as real >= 0.0;
    assert b * n as real - a * n as real == (b - a) * n as real;
  }

  /** Regions lie in the image and run forward. */
  lemma {:induction false} SnappedInImage(w: nat, h: nat, xa: real, xb: real, ya: real, yb: real, edge: int, box: Box)
    requires xa <= xb && ya <= yb && InImage(box, w, h)
    ensures var r := Snapped(Percents(w, h, xa, xb, ya, yb), edge, box, w, h);
            0 <= r.x1 <= r.x2 <= w && 0 <= r.y1 <= r.y2 <= h
  {
    ProductOrder(xa, xb, w);
    ProductOrder(ya, yb, h);
  }

  // ---------- windows ----------

  function Default(r: Region, ww: nat, wh: nat, row: nat, column: nat): Window
    requires ww >= 3 && wh >= 3
  {
    var x, y := r.x1 + Times(column, ww - 2), r.y1 + Times(row, wh - 2);
    Window(x, y, Min(Max(3, r.x2 - x), ww), Min(Max(3, r.y2 - y), wh))
  }

  /** Lies between the known sides, so nothing in it can move them. */
  predicate ExcludedX(box: Box, win: Window) {
    box.minX < win.x && box.maxX > win.x + win.w
  }

  predicate ExcludedY(box: Box, win: Window) {
    box.minY < win.y && box.maxY > win.y + win.h
  }

  /** The window cut down to the part beyond a known side. */
  function Narrowed(box: Box, win: Window): Window {
    var x2, y2 := win.x + win.w, win.y + win.h;
    var inX :=
      if ExcludedY(box, win) && box.minX < x2 < box.maxX then win.(w := Max(3, box.minX - win.x))
      else if ExcludedY(box, win) && box.maxX > win.x > box.minX then
        win.(x := Min(x2 - 3, box.maxX), w := x2 - Min(x2 - 3, box.maxX))
      else win;
    if ExcludedX(box, win) && box.minY < y2 < box.maxY then inX.(h := Max(3, box.minY - win.y))
    else if ExcludedX(box, win) && box.maxY > win.y > box.minY then
      inX.(y := Min(y2 - 3, box.maxY), h := y2 - Min(y2 - 3, box.maxY))
    else inX
  }

  /** Moved back inside the image, or cut to it. */
  function Shifted(win: Window, w: nat, h: nat): Window {
    var down :=
      if win.y + win.h <= h then win
      else if win.h <= h then win.(y := h - win.h)
      else win.(y := 0, h := h);
    if win.x + win.w <= w then down
    else if win.w <= w then down.(x := w - win.w)
    else down.(x := 0, w := w)
  }

  predicate Sound(win: Window, w: nat, h: nat) {
    && win.w >= 3 && win.h >= 3 && win.x >= 0 && win.y >= 0 && win.x + win.w <= w && win.y + win.h <= h
    && win.w * win.h <= BUFFER_SIZE
  }

  /** The grid of windows over a region. */
  predicate InGrid(r: Region, ww: nat, wh: nat, row: nat, column: nat)
    requires ww >= 3 && wh >= 3
  {
    Times(row, wh - 2) < r.y2 - r.y1 && Times(column, ww - 2) < r.x2 - r.x1
  }

  /** Every window that is scanned is at least 3 by 3, inside the image and fits the buffer; narrowing never takes
      a difference below zero. */
  lemma {:induction false} PlannedWindowSound(r: Region, ww: nat, wh: nat, row: nat, column: nat, box: Box, w: nat,
                                              h: nat)
    requires 0 <= r.x1 && r.x2 <= w && 0 <= r.y1 && r.y2 <= h && 3 <= ww <= r.x2 - r.x1 && 3 <= wh <= r.y2 - r.y1
    requires ww * wh <= BUFFER_SIZE && InGrid(r, ww, wh, row, column)
    requires var d := Default(r, ww, wh, row, column); !(ExcludedX(box, d) && ExcludedY(box, d))
    ensures var d := Default(r, ww, wh, row, column); Sound(Shifted(Narrowed(box, d), w, h), w, h)
    ensures var d := Default(r, ww, wh, row, column);
            && (ExcludedY(box, d) && box.minX < d.x + d.w < box.maxX ==> box.minX >= d.x)
            && (ExcludedX(box, d) && box.minY < d.y + d.h < box.maxY ==> box.minY >= d.y)
  {
    hide Times;
    var d := Default(r, ww, wh, row, column);
    var n := Narrowed(box, d);
    assert 3 <= n.w <= d.w && 3 <= n.h <= d.h && n.x >= d.x && n.y >= d.y;
    AreaShrinks(n.w, n.h, ww, wh);
  }

  lemma {:induction false} AreaShrinks(w: nat, h: nat, ww: nat, wh: nat)
    requires w <= ww && h <= wh
    ensures w * h <= ww * wh
  {
    Monotone(w, ww, h);
    assert ww * h == h * ww && ww * wh == wh * ww;
    Monotone(h, wh, ww);
  }

  /** Skipping a window that lies between the known sides in both directions loses nothing. */
  lemma {:induction false} ExcludedAddsNothing(g: Greys, w: nat, h: nat, threshold: nat, box: Box, win: Window)
    requires Sized(g, w, h) && ExcludedX(box, win) && ExcludedY(box, win)
    ensures Covers(box, g, w, h, threshold, win)
  {
    hide EdgesAt, Around, Response;
    forall cx: nat, cy: nat | Centre(win, cx, cy) && Detected(g, w, h, threshold, cx, cy)
      ensures Within(EdgesAt(g, w, h, threshold, cx, cy), box)
    {
      EdgesNear(g, w, h, threshold, cx, cy);
    }
  }

  /** The windows overlap so that every inner pixel of the region is the centre of a neighbourhood in one of them. */
  lemma {:induction false} WindowsCover(r: Region, ww: nat, wh: nat, cx: nat, cy: nat) returns (row: nat, column: nat)
    requires ww >= 3 && wh >= 3 && 0 <= r.x1 < cx < r.x2 - 1 && 0 <= r.y1 < cy < r.y2 - 1
    ensures InGrid(r, ww, wh, row, column) && Centre(Default(r, ww, wh, row, column), cx, cy)
  {
    column, row := (cx - r.x1 - 1) / (ww - 2), (cy - r.y1 - 1) / (wh - 2);
    Between(cx - r.x1 - 1, ww - 2);
    Between(cy - r.y1 - 1, wh - 2);
  }

  lemma {:induction false} Between(n: nat, step: nat)
    requires step > 0
    ensures Times(n / step, step) <= n < Times(n / step, step) + step
  {}
}
