// What the content search finds: any step where it looks, and exactly the sides
// of a rectangle.

module ContentRectangle {
  import opened Numbers
  import opened Memory
  import opened EdgeDetection
  import opened EdgeResponse
  import opened ScanWindows
  import opened ContentScan

  // ---------- steps ----------

  /** In the neighbourhood of a pixel one grey before column x of three, and another from it on. */
  predicate UprightStep(s: Scene, cx: nat, cy: nat, x: nat, u: byte, v: byte) {
    && Inner(s.w, s.h, cx, cy) && 1 <= x <= 2 && Abs(u as int - v as int) > s.threshold
    && forall j: nat, i: nat :: j < 3 && i < 3 ==> Pixel(s, cx, cy, j, i) == if i < x then u else v
  }

  /** And with rows. */
  predicate LevelStep(s: Scene, cx: nat, cy: nat, y: nat, u: byte, v: byte) {
    && Inner(s.w, s.h, cx, cy) && 1 <= y <= 2 && Abs(u as int - v as int) > s.threshold
    && forall j: nat, i: nat :: j < 3 && i < 3 ==> Pixel(s, cx, cy, j, i) == if j < y then u else v
  }

  function Pixel(s: Scene, cx: nat, cy: nat, j: nat, i: nat): byte
    requires Inner(s.w, s.h, cx, cy) && j < 3 && i < 3
  {
    s.g[cy - 1 + j][cx - 1 + i]
  }

  lemma {:induction false} PixelsAround(s: Scene, cx: nat, cy: nat)
    requires Inner(s.w, s.h, cx, cy)
    ensures Around(s.g, s.w, s.h, cx, cy) ==
            [Pixel(s, cx, cy, 0, 0), Pixel(s, cx, cy, 0, 1), Pixel(s, cx, cy, 0, 2),
             Pixel(s, cx, cy, 1, 0), Pixel(s, cx, cy, 1, 1), Pixel(s, cx, cy, 1, 2),
             Pixel(s, cx, cy, 2, 0), Pixel(s, cx, cy, 2, 1), Pixel(s, cx, cy, 2, 2)]
  {}

  /** A step is detected, and its edges are the step itself over the height of the neighbourhood. */
  lemma {:induction false} UprightDetected(s: Scene, cx: nat, cy: nat, x: nat, u: byte, v: byte)
    requires UprightStep(s, cx, cy, x, u, v)
    ensures DetectedAt(s, cx, cy)
    ensures Within(Box(cx - 1 + x, cx - 1 + x, cy - 1, cy + 2), Edges(s, cx, cy))
  {
    hide Local;
    PixelsAround(s, cx, cy);
    StepResponds(Around(s.g, s.w, s.h, cx, cy));
    LocalHasRowEdge(Around(s.g, s.w, s.h, cx, cy), s.threshold, 0, x - 1);
    LocalHasRowEdge(Around(s.g, s.w, s.h, cx, cy), s.threshold, 2, x - 1);
  }

  lemma {:induction false} LevelDetected(s: Scene, cx: nat, cy: nat, y: nat, u: byte, v: byte)
    requires LevelStep(s, cx, cy, y, u, v)
    ensures DetectedAt(s, cx, cy)
    ensures Within(Box(cx - 1, cx + 2, cy - 1 + y, cy - 1 + y), Edges(s, cx, cy))
  {
    hide Columns;
    PixelsAround(s, cx, cy);
    StepResponds(Around(s.g, s.w, s.h, cx, cy));
    LocalHasColumnEdge(Around(s.g, s.w, s.h, cx, cy), s.threshold, 0, y - 1, 3);
    LocalHasColumnEdge(Around(s.g, s.w, s.h, cx, cy), s.threshold, 2, y - 1, 3);
  }

  /** When everything is searched every step in the image is in the box, or within two pixels of it in images of more
      than 292 columns. */
  lemma {:induction false} StepFound(s: Scene, cx: nat, cy: nat, at: nat, u: byte, v: byte)
    requires s.w >= 3 && s.h >= 3 && SearchesEverything(s)
    ensures UprightStep(s, cx, cy, at, u, v) ==>
      Within(Box(cx - 1 + at, cx - 1 + at, cy - 1, cy + 2), Padded(Found(s), if s.w <= 292 then 0 else 2))
    ensures LevelStep(s, cx, cy, at, u, v) ==>
      Within(Box(cx - 1, cx + 2, cy - 1 + at, cy - 1 + at), Padded(Found(s), if s.w <= 292 then 0 else 2))
  {
    hide SearchesEverything, Found, DetectedAt, Edges, UprightStep, LevelStep;
    if UprightStep(s, cx, cy, at, u, v) {
      UprightDetected(s, cx, cy, at, u, v);
      EverythingFound(s, cx, cy);
    }
    if LevelStep(s, cx, cy, at, u, v) {
      LevelDetected(s, cx, cy, at, u, v);
      EverythingFound(s, cx, cy);
    }
  }

  // ---------- an image of a rectangle ----------

  predicate InBox(box: Box, x: int, y: int) {
    box.minX <= x < box.maxX && box.minY <= y < box.maxY
  }

  /** One grey in the box and another around it, further apart than the threshold. */
  predicate Shows(s: Scene, box: Box, p: byte, q: byte) {
    && 0 <= box.minX < box.maxX <= s.w && 0 <= box.minY < box.maxY <= s.h && Abs(p as int - q as int) > s.threshold
    && forall y, x :: 0 <= y < s.h && 0 <= x < s.w ==> s.g[y][x] == if InBox(box, x, y) then p else q
  }

  // ---------- what is detected ----------

  /** The pixel in row j and column i of a neighbourhood. */
  lemma {:induction false} PixelAround(s: Scene, box: Box, p: byte, q: byte, cx: nat, cy: nat, j: nat, i: nat)
    requires Shows(s, box, p, q) && Inner(s.w, s.h, cx, cy) && j < 3 && i < 3
    ensures Around(s.g, s.w, s.h, cx, cy)[j * 3 + i] == if InBox(box, cx - 1 + i, cy - 1 + j) then p else q
  {}

  lemma {:induction false} AcrossMeans(s: Scene, box: Box, p: byte, q: byte, cx: nat, cy: nat, k: nat, x: nat)
    requires Shows(s, box, p, q) && Inner(s.w, s.h, cx, cy) && k < 3 && 1 <= x <= 2
    ensures Across(Around(s.g, s.w, s.h, cx, cy), s.threshold, k, x) ==>
      box.minY <= cy - 1 + k < box.maxY && (cx - 1 + x == box.minX || cx - 1 + x == box.maxX)
  {
    hide Around, Shows;
    PixelAround(s, box, p, q, cx, cy, k, x - 1);
    PixelAround(s, box, p, q, cx, cy, k, x);
  }

  lemma {:induction false} DownMeans(s: Scene, box: Box, p: byte, q: byte, cx: nat, cy: nat, k: nat, y: nat)
    requires Shows(s, box, p, q) && Inner(s.w, s.h, cx, cy) && k < 3 && 1 <= y <= 2
    ensures Down(Around(s.g, s.w, s.h, cx, cy), s.threshold, k, y) ==>
      box.minX <= cx - 1 + k < box.maxX && (cy - 1 + y == box.minY || cy - 1 + y == box.maxY)
  {
    hide Around, Shows;
    PixelAround(s, box, p, q, cx, cy, y - 1, k);
    PixelAround(s, box, p, q, cx, cy, y, k);
  }

  predicate Near(box: Box, cx: int, cy: int) {
    box.minX - 1 <= cx <= box.maxX && box.minY - 1 <= cy <= box.maxY
  }

  /** Nothing responds where no pixel of the box is near. */
  lemma {:induction false} FarIsFlat(s: Scene, box: Box, p: byte, q: byte, cx: nat, cy: nat)
    requires Shows(s, box, p, q) && Inner(s.w, s.h, cx, cy) && !Near(box, cx, cy)
    ensures Response(Around(s.g, s.w, s.h, cx, cy)) == 0
  {
    assert Around(s.g, s.w, s.h, cx, cy) == [q, q, q, q, q, q, q, q, q];
  }

  /** Whatever is detected in such an image has its edges in the box. */
  lemma {:induction false} EdgesInside(s: Scene, box: Box, p: byte, q: byte, cx: int, cy: int)
    requires Shows(s, box, p, q) && DetectedAt(s, cx, cy)
    ensures Within(Edges(s, cx, cy), box)
  {
    hide Around, Across, Down, Local, Response;
    if !Near(box, cx, cy) { FarIsFlat(s, box, p, q, cx, cy); }
    var m := Around(s.g, s.w, s.h, cx, cy);
    LocalIs(m, s.threshold);
    MeansInRow(s, box, p, q, cx, cy, 0);
    MeansInRow(s, box, p, q, cx, cy, 1);
    MeansInRow(s, box, p, q, cx, cy, 2);
  }

  lemma {:induction false} MeansInRow(s: Scene, box: Box, p: byte, q: byte, cx: nat, cy: nat, k: nat)
    requires Shows(s, box, p, q) && Inner(s.w, s.h, cx, cy) && k < 3
    ensures var m := Around(s.g, s.w, s.h, cx, cy);
            && (RowHasEdge(m, s.threshold, k) ==> box.minY <= cy - 1 + k < box.maxY)
            && (ColumnHasEdge(m, s.threshold, k) ==> box.minX <= cx - 1 + k < box.maxX)
            && (Across(m, s.threshold, k, 1) ==> cx == box.minX || cx == box.maxX)
            && (Across(m, s.threshold, k, 2) ==> cx + 1 == box.minX || cx + 1 == box.maxX)
            && (Down(m, s.threshold, k, 1) ==> cy == box.minY || cy == box.maxY)
            && (Down(m, s.threshold, k, 2) ==> cy + 1 == box.minY || cy + 1 == box.maxY)
  {
    hide Shows, Around, Across, Down;
    AcrossMeans(s, box, p, q, cx, cy, k, 1);
    AcrossMeans(s, box, p, q, cx, cy, k, 2);
    DownMeans(s, box, p, q, cx, cy, k, 1);
    DownMeans(s, box, p, q, cx, cy, k, 2);
  }

  /** A box that grows from within stays within. */
  lemma {:induction false} GrownInside(s: Scene, box: Box, p: byte, q: byte, before: Box, after: Box)
    requires Shows(s, box, p, q) && GrownIn(s, before, after) && Within(before, box)
    ensures Within(after, box)
  {
    hide Shows, EdgesAt, Around, Response;
    forall cx: nat, cy: nat | Detected(s.g, s.w, s.h, s.threshold, cx, cy)
      ensures Within(EdgesAt(s.g, s.w, s.h, s.threshold, cx, cy), box)
    {
      EdgesInside(s, box, p, q, cx, cy);
    }
  }

  // ---------- the sides are detected ----------

  /** Grey q on the left and in the middle, p to the right of it, and either above and below that. */
  lemma {:induction false} SideResponds(m: Matrix, p: byte, q: byte)
    requires m[0] == m[3] == m[6] == q && m[5] == p && (m[2] == p || m[2] == q) && (m[8] == p || m[8] == q)
    ensures Response(m) >= 10 * Abs(p as int - q as int)
  {}

  lemma {:induction false} LeftDetected(s: Scene, box: Box, p: byte, q: byte, cy: nat)
    requires Shows(s, box, p, q) && box.minX >= 2 && box.minY <= cy < box.maxY && 1 <= cy < s.h - 1
    ensures DetectedAt(s, box.minX - 1, cy)
  {
    SideResponds(Around(s.g, s.w, s.h, box.minX - 1, cy), p, q);
  }

  lemma {:induction false} RightDetected(s: Scene, box: Box, p: byte, q: byte, cy: nat)
    requires Shows(s, box, p, q) && box.maxX <= s.w - 2 && box.minY <= cy < box.maxY && 1 <= cy < s.h - 1
    ensures DetectedAt(s, box.maxX, cy)
  {
    var m := Around(s.g, s.w, s.h, box.maxX, cy);
    ResponseTurns(m);
    SideResponds(LeftRight(m), p, q);
  }

  lemma {:induction false} TopDetected(s: Scene, box: Box, p: byte, q: byte, cx: nat)
    requires Shows(s, box, p, q) && box.minY >= 2 && box.minX <= cx < box.maxX && 1 <= cx < s.w - 1
    ensures DetectedAt(s, cx, box.minY - 1)
  {
    var m := Around(s.g, s.w, s.h, cx, box.minY - 1);
    ResponseTurns(m);
    SideResponds(Turned(m), p, q);
  }

  lemma {:induction false} BottomDetected(s: Scene, box: Box, p: byte, q: byte, cx: nat)
    requires Shows(s, box, p, q) && box.maxY <= s.h - 2 && box.minX <= cx < box.maxX && 1 <= cx < s.w - 1
    ensures DetectedAt(s, cx, box.maxY)
  {
    var m := Around(s.g, s.w, s.h, cx, box.maxY);
    ResponseTurns(m);
    ResponseTurns(Turned(m));
    SideResponds(LeftRight(Turned(m)), p, q);
  }

  // ---------- the strips through the middle ----------

  lemma {:induction false} Halves(n: nat)
    ensures Start(0.5, n) == Clamp(n / 2 - 1, n) && End(0.5, n) == Clamp((n + 1) / 2 + 1, n)
    ensures Start(0.0, n) == 0 && End(1.0, n) == n
  {
    assert 0.0 * n as real == 0.0 && 1.0 * n as real == n as real;
  }

  /** The narrow range around the middle becomes wide enough to have the middle strictly inside. */
  lemma {:induction false} MiddleInside(n: nat)
    requires n >= 3
    ensures var lo, hi := Clamp(n / 2 - 1, n), Clamp((n + 1) / 2 + 1, n);
            lo < hi && Widened(lo, hi, 7, n).0 < n / 2 < Widened(lo, hi, 7, n).1 - 1
  {}

  /** The rectangle of a strip seen from the left or from the right. */
  lemma {:induction false} SideStrip(s: Scene, found: Box, region: ScanRegion, cx: nat)
    requires RunsForward(region) && InImage(found, s.w, s.h) && s.w >= 3 && s.h >= 3
    requires region.edge == 2 || region.edge == 4
    requires region.ya == region.yb == 0.5 && DetectedAt(s, cx, s.h / 2)
    requires Rectangle(s, found, region).x1 < cx < Rectangle(s, found, region).x2 - 1
    ensures Reaches(AfterRegion(s, found, region), cx, s.h / 2)
  {
    hide DetectedAt, AfterRegion, Widened, Reaches, Start, End, WideEnough, Clamp;
    Halves(s.h);
    MiddleInside(s.h);
    WideEnoughIs(s, Rectangle(s, found, region), region.edge);
    RegionReaches(s, found, region, cx, s.h / 2);
  }

  /** And from the top or from the bottom. */
  lemma {:induction false} UprightStrip(s: Scene, found: Box, region: ScanRegion, cy: nat)
    requires RunsForward(region) && InImage(found, s.w, s.h) && s.w >= 3 && s.h >= 3
    requires region.edge == 1 || region.edge == 3
    requires region.xa == region.xb == 0.5 && DetectedAt(s, s.w / 2, cy)
    requires Rectangle(s, found, region).y1 < cy < Rectangle(s, found, region).y2 - 1
    ensures Reaches(AfterRegion(s, found, region), s.w / 2, cy)
  {
    hide DetectedAt, AfterRegion, Widened, Reaches, Start, End, WideEnough, Clamp;
    Halves(s.w);
    MiddleInside(s.w);
    WideEnoughIs(s, Rectangle(s, found, region), region.edge);
    RegionReaches(s, found, region, s.w / 2, cy);
  }

  /** Boxes found in such an image so far. */
  predicate SoFar(s: Scene, box: Box, p: byte, q: byte, found: Box) {
    && s.w >= 3 && s.h >= 3 && Shows(s, box, p, q) && InBox(box, s.w / 2, s.h / 2)
    && InImage(found, s.w, s.h) && Within(found, box)
  }

  lemma {:induction false} LeftFound(s: Scene, box: Box, p: byte, q: byte, found: Box)
    requires SoFar(s, box, p, q, found) && box.minX >= 2
    ensures AfterRegion(s, found, ScanRegion(4, 0.0, 0.5, 0.5, 0.5)).minX <= box.minX
  {
    hide AfterRegion, WideEnough, DetectedAt, Start, End;
    var strip := ScanRegion(4, 0.0, 0.5, 0.5, 0.5);
    if found.minX > box.minX {
      LeftDetected(s, box, p, q, s.h / 2);
      Halves(s.w);
      SideStrip(s, found, strip, box.minX - 1);
    }
  }

  lemma {:induction false} RightFound(s: Scene, box: Box, p: byte, q: byte, found: Box)
    requires SoFar(s, box, p, q, found) && box.maxX <= s.w - 2
    ensures AfterRegion(s, found, ScanRegion(2, 0.5, 1.0, 0.5, 0.5)).maxX >= box.maxX
  {
    hide AfterRegion, WideEnough, DetectedAt, Start, End;
    var strip := ScanRegion(2, 0.5, 1.0, 0.5, 0.5);
    if found.maxX < box.maxX {
      RightDetected(s, box, p, q, s.h / 2);
      Halves(s.w);
      SideStrip(s, found, strip, box.maxX);
    }
  }

  lemma {:induction false} TopFound(s: Scene, box: Box, p: byte, q: byte, found: Box)
    requires SoFar(s, box, p, q, found) && box.minY >= 2
    ensures AfterRegion(s, found, ScanRegion(1, 0.5, 0.5, 0.0, 0.5)).minY <= box.minY
  {
    hide AfterRegion, WideEnough, DetectedAt, Start, End;
    var strip := ScanRegion(1, 0.5, 0.5, 0.0, 0.5);
    if found.minY > box.minY {
      TopDetected(s, box, p, q, s.w / 2);
      Halves(s.h);
      UprightStrip(s, found, strip, box.minY - 1);
    }
  }

  lemma {:induction false} BottomFound(s: Scene, box: Box, p: byte, q: byte, found: Box)
    requires SoFar(s, box, p, q, found) && box.maxY <= s.h - 2
    ensures AfterRegion(s, found, ScanRegion(3, 0.5, 0.5, 0.5, 1.0)).maxY >= box.maxY
  {
    hide AfterRegion, WideEnough, DetectedAt, Start, End;
    var strip := ScanRegion(3, 0.5, 0.5, 0.5, 1.0);
    if found.maxY < box.maxY {
      BottomDetected(s, box, p, q, s.w / 2);
      Halves(s.h);
      UprightStrip(s, found, strip, box.maxY);
    }
  }

  // ---------- the whole search ----------

  lemma {:induction false} LaterGrown(s: Scene, box: Box, regions: seq<ScanRegion>, i: nat)
    requires Forward(regions) && InImage(box, s.w, s.h) && s.w >= 3 && s.h >= 3 && i <= |regions|
    ensures GrownIn(s, AfterRegions(s, box, regions[..i]), AfterRegions(s, box, regions))
  {
    hide GrownIn, AfterRegion, RunsForward, InImage;
    var n, after := |regions|, AfterRegions(s, box, regions);
    if i == n {
      AllRegions(regions);
      GrownNot(s, after);
    } else {
      assert regions[..n - 1][..i] == regions[..i];
      LaterGrown(s, box, regions[..n - 1], i);
      GrownOn(s, AfterRegions(s, box, regions[..i]), AfterRegions(s, box, regions[..n - 1]), after);
    }
  }

  /** The box before strip i lies in the rectangle, and what strip i makes of it lies in what is found at last. */
  lemma {:induction false} AtStrip(s: Scene, box: Box, p: byte, q: byte, i: nat) returns (before: Box)
    requires s.w >= 3 && s.h >= 3 && Shows(s, box, p, q) && InBox(box, s.w / 2, s.h / 2) && i < 12
    ensures SoFar(s, box, p, q, before) && RunsForward(QUICK_STRIPS[i])
    ensures Within(AfterRegion(s, before, QUICK_STRIPS[i]), Found(s))
  {
    hide Shows, AfterRegion, SearchesEverything;
    StripsForward();
    EmptyInImage(s);
    before := AfterRegions(s, Empty(s), QUICK_STRIPS[..i]);
    NextAfterRegions(s, Empty(s), QUICK_STRIPS, i);
    LaterGrown(s, Empty(s), QUICK_STRIPS, i + 1);
    EmptyInside(s, box, p, q);
    GrownInside(s, box, p, q, Empty(s), before);
    AfterStripsIs(s);
  }

  lemma {:induction false} EmptyInside(s: Scene, box: Box, p: byte, q: byte)
    requires Shows(s, box, p, q)
    ensures Within(Empty(s), box)
  {}

  lemma {:induction false} AcrossSides(s: Scene, box: Box, p: byte, q: byte)
    requires s.w >= 3 && s.h >= 3 && Shows(s, box, p, q) && InBox(box, s.w / 2, s.h / 2)
    ensures box.minX >= 2 ==> Found(s).minX <= box.minX
    ensures box.maxX <= s.w - 2 ==> Found(s).maxX >= box.maxX
  {
    hide Shows, AfterRegion, Found, SoFar, InBox;
    var left := AtStrip(s, box, p, q, 0);
    if box.minX >= 2 { LeftFound(s, box, p, q, left); }
    var right := AtStrip(s, box, p, q, 1);
    if box.maxX <= s.w - 2 { RightFound(s, box, p, q, right); }
  }

  lemma {:induction false} UprightSides(s: Scene, box: Box, p: byte, q: byte)
    requires s.w >= 3 && s.h >= 3 && Shows(s, box, p, q) && InBox(box, s.w / 2, s.h / 2)
    ensures box.minY >= 2 ==> Found(s).minY <= box.minY
    ensures box.maxY <= s.h - 2 ==> Found(s).maxY >= box.maxY
  {
    hide Shows, AfterRegion, Found, SoFar, InBox;
    var top := AtStrip(s, box, p, q, 6);
    if box.minY >= 2 { TopFound(s, box, p, q, top); }
    var bottom := AtStrip(s, box, p, q, 9);
    if box.maxY <= s.h - 2 { BottomFound(s, box, p, q, bottom); }
  }

  /** The rectangle in an image of one, when it takes in the middle: each of its sides that is two pixels or more from
      the image's is found exactly, and with all four the content is the rectangle. */
  lemma {:induction false} RectangleFound(s: Scene, box: Box, p: byte, q: byte)
    requires s.w >= 3 && s.h >= 3 && Shows(s, box, p, q) && InBox(box, s.w / 2, s.h / 2)
    ensures Within(Found(s), box)
    ensures box.minX >= 2 ==> Content(s).minX == box.minX
    ensures box.maxX <= s.w - 2 ==> Content(s).maxX == box.maxX
    ensures box.minY >= 2 ==> Content(s).minY == box.minY
    ensures box.maxY <= s.h - 2 ==> Content(s).maxY == box.maxY
    ensures box.minX >= 2 && box.maxX <= s.w - 2 && box.minY >= 2 && box.maxY <= s.h - 2 ==> Content(s) == box
  {
    hide Shows, AfterRegion, Found;
    AcrossSides(s, box, p, q);
    UprightSides(s, box, p, q);
    EmptyInside(s, box, p, q);
    GrownInside(s, box, p, q, Empty(s), Found(s));
    MiddleIn(s);
  }

  lemma {:induction false} MiddleIn(s: Scene)
    requires s.w >= 3 && s.h >= 3
    ensures 0 < s.w / 2 < s.w && 0 < s.h / 2 < s.h
  {}
}
