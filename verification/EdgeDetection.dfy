// What the content search looks for: 3x3 neighbourhoods whose Scharr response
// exceeds a threshold, and the box their edges span.

module EdgeDetection {
  import opened Numbers
  import opened Memory

  /** The bounds found so far; before anything is found the minima lie at the far side, the maxima at zero. */
  datatype Box = Box(minX: int, maxX: int, minY: int, maxY: int)

  /** One grey value per pixel. */
  type Greys = seq<seq<byte>>

  predicate Sized(g: Greys, w: nat, h: nat) {
    |g| == h && forall y :: 0 <= y < h ==> |g[y]| == w
  }

  /** Nine grey values, row by row. */
  type Matrix = m: seq<byte> | |m| == 9 witness [0, 0, 0, 0, 0, 0, 0, 0, 0]

  function Response(m: Matrix): nat {
    var a: seq<int> := m;
    Abs(3 * a[0] + 10 * a[3] + 3 * a[6] - 3 * a[2] - 10 * a[5] - 3 * a[8])
      + Abs(3 * a[0] + 10 * a[1] + 3 * a[2] - 3 * a[6] - 10 * a[7] - 3 * a[8])
  }

  predicate Differ(m: Matrix, i: nat, j: nat, threshold: nat)
    requires i < 9 && j < 9
  {
    Abs(m[i] as int - m[j] as int) > threshold
  }

  function GrowX(box: Box, min: int, max: int): Box {
    Box(Min(box.minX, min), Max(box.maxX, max), box.minY, box.maxY)
  }

  function GrowY(box: Box, min: int, max: int): Box {
    Box(box.minX, box.maxX, Min(box.minY, min), Max(box.maxY, max))
  }

  /** The box after comparing neighbours along row my. */
  function AlongRow(m: Matrix, threshold: nat, box: Box, my: nat): Box
    requires my < 3
  {
    var left, right := Differ(m, my * 3, my * 3 + 1, threshold), Differ(m, my * 3 + 1, my * 3 + 2, threshold);
    var b := if left then GrowX(box, 1, 1) else box;
    var c := if right then GrowX(b, 2, 2) else b;
    if left || right then GrowY(c, my, my + 1) else c
  }

  /** The box after comparing neighbours along column mx. */
  function AlongColumn(m: Matrix, threshold: nat, box: Box, mx: nat): Box
    requires mx < 3
  {
    var upper, lower := Differ(m, mx, mx + 3, threshold), Differ(m, mx + 3, mx + 6, threshold);
    var b := if upper then GrowY(box, 1, 1) else box;
    var c := if lower then GrowY(b, 2, 2) else b;
    if upper || lower then GrowX(c, mx, mx + 1) else c
  }

  function Rows(m: Matrix, threshold: nat, n: nat): Box
    requires n <= 3
  {
    if n == 0 then Box(2, 1, 2, 1) else AlongRow(m, threshold, Rows(m, threshold, n - 1), n - 1)
  }

  function Columns(m: Matrix, threshold: nat, n: nat): Box
    requires n <= 3
  {
    if n == 0 then Rows(m, threshold, 3) else AlongColumn(m, threshold, Columns(m, threshold, n - 1), n - 1)
  }

  /** The edges within a neighbourhood, counted from its upper left corner. */
  function Local(m: Matrix, threshold: nat): Box {
    Columns(m, threshold, 3)
  }

  /** The local box lies in the neighbourhood; it may be empty, but never by more than one pixel. */
  lemma {:induction false} LocalBounds(m: Matrix, threshold: nat)
    ensures var b := Local(m, threshold);
            0 <= b.minX <= 2 && 1 <= b.maxX <= 3 && 0 <= b.minY <= 2 && 1 <= b.maxY <= 3
  {
    RowsBounds(m, threshold, 3);
    ColumnsBounds(m, threshold, 3);
  }

  predicate InNeighbourhood(b: Box) {
    0 <= b.minX <= 2 && 1 <= b.maxX <= 3 && 0 <= b.minY <= 2 && 1 <= b.maxY <= 3
  }

  lemma {:induction false} RowsBounds(m: Matrix, threshold: nat, n: nat)
    requires n <= 3
    ensures InNeighbourhood(Rows(m, threshold, n))
  {
    if n > 0 { RowsBounds(m, threshold, n - 1); }
  }

  lemma {:induction false} ColumnsBounds(m: Matrix, threshold: nat, n: nat)
    requires n <= 3
    ensures InNeighbourhood(Columns(m, threshold, n))
  {
    if n == 0 { RowsBounds(m, threshold, 3); } else { ColumnsBounds(m, threshold, n - 1); }
  }

  /** An edge between neighbours in a row puts both the edge and the row in the local box. */
  lemma {:induction false} LocalHasRowEdge(m: Matrix, threshold: nat, my: nat, x: nat)
    requires my < 3 && x < 2 && Differ(m, my * 3 + x, my * 3 + x + 1, threshold)
    ensures var b := Local(m, threshold); b.minX <= x + 1 <= b.maxX && b.minY <= my && my + 1 <= b.maxY
  {
    RowsHave(m, threshold, my, x, 3);
    ColumnsHold(m, threshold, 3);
  }

  lemma {:induction false} RowsHave(m: Matrix, threshold: nat, my: nat, x: nat, n: nat)
    requires my < n <= 3 && x < 2 && Differ(m, my * 3 + x, my * 3 + x + 1, threshold)
    ensures var b := Rows(m, threshold, n); b.minX <= x + 1 <= b.maxX && b.minY <= my && my + 1 <= b.maxY
  {
    if my < n - 1 { RowsHave(m, threshold, my, x, n - 1); }
  }

  predicate Within(inner: Box, outer: Box) {
    outer.minX <= inner.minX && inner.maxX <= outer.maxX && outer.minY <= inner.minY && inner.maxY <= outer.maxY
  }

  lemma {:induction false} ColumnsHold(m: Matrix, threshold: nat, n: nat)
    requires n <= 3
    ensures Within(Rows(m, threshold, 3), Columns(m, threshold, n))
  {
    if n > 0 { ColumnsHold(m, threshold, n - 1); }
  }

  /** Likewise for neighbours in a column. */
  lemma {:induction false} LocalHasColumnEdge(m: Matrix, threshold: nat, mx: nat, y: nat, n: nat)
    requires mx < n <= 3 && y < 2 && Differ(m, mx + 3 * y, mx + 3 * y + 3, threshold)
    ensures var b := Columns(m, threshold, n); b.minY <= y + 1 <= b.maxY && b.minX <= mx && mx + 1 <= b.maxX
  {
    if mx < n - 1 { LocalHasColumnEdge(m, threshold, mx, y, n - 1); }
  }

  // ---------- in an image ----------

  /** The neighbourhood of an inner pixel. */
  function Around(g: Greys, w: nat, h: nat, cx: nat, cy: nat): Matrix
    requires Sized(g, w, h) && 1 <= cx < w - 1 && 1 <= cy < h - 1
  {
    [g[cy - 1][cx - 1], g[cy - 1][cx], g[cy - 1][cx + 1],
     g[cy][cx - 1], g[cy][cx], g[cy][cx + 1],
     g[cy + 1][cx - 1], g[cy + 1][cx], g[cy + 1][cx + 1]]
  }

  predicate Inner(w: nat, h: nat, cx: nat, cy: nat) {
    1 <= cx < w - 1 && 1 <= cy < h - 1
  }

  /** Something was detected at a pixel. */
  predicate Detected(g: Greys, w: nat, h: nat, threshold: nat, cx: nat, cy: nat)
    requires Sized(g, w, h)
  {
    Inner(w, h, cx, cy) && Response(Around(g, w, h, cx, cy)) > threshold
  }

  /** The edges there, in the image. */
  function EdgesAt(g: Greys, w: nat, h: nat, threshold: nat, cx: nat, cy: nat): Box
    requires Sized(g, w, h) && Inner(w, h, cx, cy)
  {
    var b := Local(Around(g, w, h, cx, cy), threshold);
    Box(b.minX + cx - 1, b.maxX + cx - 1, b.minY + cy - 1, b.maxY + cy - 1)
  }

  lemma {:induction false} EdgesNear(g: Greys, w: nat, h: nat, threshold: nat, cx: nat, cy: nat)
    requires Sized(g, w, h) && Inner(w, h, cx, cy)
    ensures var b := EdgesAt(g, w, h, threshold, cx, cy);
            && cx - 1 <= b.minX <= cx + 1 && cx <= b.maxX <= cx + 2 && cy - 1 <= b.minY <= cy + 1
              && cy <= b.maxY <= cy + 2
  {
    LocalBounds(Around(g, w, h, cx, cy), threshold);
  }

  /** The smallest box that holds both. */
  function Join(a: Box, b: Box): Box {
    Box(Min(a.minX, b.minX), Max(a.maxX, b.maxX), Min(a.minY, b.minY), Max(a.maxY, b.maxY))
  }

  /** A scanned rectangle, with its centres strictly inside. */
  datatype Window = Window(x: int, y: int, w: int, h: int)

  predicate Centre(win: Window, cx: nat, cy: nat) {
    win.x < cx < win.x + win.w - 1 && win.y < cy < win.y + win.h - 1
  }

  /** The box holds the edges of every detection centred in the window. */
  ghost predicate Covers(box: Box, g: Greys, w: nat, h: nat, threshold: nat, win: Window)
    requires Sized(g, w, h)
  {
    forall cx: nat, cy: nat :: Centre(win, cx, cy) && Detected(g, w, h, threshold, cx, cy) ==>
      Within(EdgesAt(g, w, h, threshold, cx, cy), box)
  }

  /** Each side of the box is the old one's or one of a detection's. */
  ghost predicate Spanned(before: Box, box: Box, g: Greys, w: nat, h: nat, threshold: nat)
    requires Sized(g, w, h)
  {
    && (box.minX != before.minX ==>
          exists cx: nat, cy: nat :: Detected(g, w, h, threshold, cx, cy)
            && EdgesAt(g, w, h, threshold, cx, cy).minX == box.minX)
    && (box.maxX != before.maxX ==>
          exists cx: nat, cy: nat :: Detected(g, w, h, threshold, cx, cy)
            && EdgesAt(g, w, h, threshold, cx, cy).maxX == box.maxX)
    && (box.minY != before.minY ==>
          exists cx: nat, cy: nat :: Detected(g, w, h, threshold, cx, cy)
            && EdgesAt(g, w, h, threshold, cx, cy).minY == box.minY)
    && (box.maxY != before.maxY ==>
          exists cx: nat, cy: nat :: Detected(g, w, h, threshold, cx, cy)
            && EdgesAt(g, w, h, threshold, cx, cy).maxY == box.maxY)
  }

  /** The box has only grown, and only by detections. */
  ghost predicate Grown(before: Box, box: Box, g: Greys, w: nat, h: nat, threshold: nat)
    requires Sized(g, w, h)
  {
    Within(before, box) && Spanned(before, box, g, w, h, threshold)
  }

  lemma {:induction false} GrownStill(a: Box, g: Greys, w: nat, h: nat, threshold: nat)
    requires Sized(g, w, h)
    ensures Grown(a, a, g, w, h, threshold)
  {}

  lemma {:induction false} GrownFurther(a: Box, b: Box, c: Box, g: Greys, w: nat, h: nat, threshold: nat)
    requires Sized(g, w, h) && Grown(a, b, g, w, h, threshold) && Grown(b, c, g, w, h, threshold)
    ensures Grown(a, c, g, w, h, threshold)
  {
    hide Detected, EdgesAt;
  }

  lemma {:induction false} GrownByDetection(a: Box, g: Greys, w: nat, h: nat, threshold: nat, cx: nat, cy: nat)
    requires Sized(g, w, h) && Detected(g, w, h, threshold, cx, cy)
    ensures Grown(a, Join(a, EdgesAt(g, w, h, threshold, cx, cy)), g, w, h, threshold)
    ensures Within(EdgesAt(g, w, h, threshold, cx, cy), Join(a, EdgesAt(g, w, h, threshold, cx, cy)))
  {
    hide EdgesAt;
  }

  /** Bounds that an empty box of an image and every detection keep to. */
  predicate InImage(box: Box, w: nat, h: nat) {
    0 <= box.minX <= w && 0 <= box.maxX <= w && 0 <= box.minY <= h && 0 <= box.maxY <= h
  }

  lemma {:induction false} GrownInImage(before: Box, box: Box, g: Greys, w: nat, h: nat, threshold: nat)
    requires Sized(g, w, h) && InImage(before, w, h) && Grown(before, box, g, w, h, threshold)
    ensures InImage(box, w, h)
  {
    hide EdgesAt, Around, Response;
    forall cx: nat, cy: nat | Detected(g, w, h, threshold, cx, cy)
      ensures InImage(EdgesAt(g, w, h, threshold, cx, cy), w, h)
    {
      EdgesNear(g, w, h, threshold, cx, cy);
    }
  }

  /** Where every neighbourhood is of one grey nothing is detected. */
  lemma {:induction false} FlatFindsNothing(before: Box, box: Box, g: Greys, w: nat, h: nat, threshold: nat, v: byte)
    requires Sized(g, w, h) && (forall y, x :: 0 <= y < h && 0 <= x < w ==> g[y][x] == v)
      && Grown(before, box, g, w, h, threshold)
    ensures box == before
  {
    forall cx: nat, cy: nat ensures !Detected(g, w, h, threshold, cx, cy) {
      if Inner(w, h, cx, cy) {
        assert Around(g, w, h, cx, cy) == [v, v, v, v, v, v, v, v, v];
      }
    }
  }
}
