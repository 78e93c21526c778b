// What each part of the content search makes of the box found so far, as a
// function of the image, and that nothing it scans is lost by more than two pixels.

module ContentScan {
  import opened Numbers
  import opened EdgeDetection
  import opened Memory
  import opened ScanWindows

  /** Grey values and the threshold above which an edge counts. */
  datatype Search = Search(g: Greys, w: nat, h: nat, threshold: nat)

  type Scene = s: Search | Sized(s.g, s.w, s.h) witness Search([], 0, 0, 0)

  /** The box found, from boxes found before; it has only grown, and only by detections. */
  ghost predicate GrownIn(s: Scene, before: Box, box: Box) {
    Grown(before, box, s.g, s.w, s.h, s.threshold)
  }

  lemma {:induction false} GrownOn(s: Scene, a: Box, b: Box, c: Box)
    requires GrownIn(s, a, b) && GrownIn(s, b, c)
    ensures GrownIn(s, a, c)
  {
    GrownFurther(a, b, c, s.g, s.w, s.h, s.threshold);
  }

  lemma {:induction false} GrownNot(s: Scene, a: Box)
    ensures GrownIn(s, a, a)
  {
    GrownStill(a, s.g, s.w, s.h, s.threshold);
  }

  /** What a box holds, nearly or not, a grown one does. */
  lemma {:induction false} HeldOn(s: Scene, before: Box, box: Box, inner: Box)
    requires GrownIn(s, before, box)
    ensures Within(inner, before) ==> Within(inner, box)
    ensures Within(inner, Padded(before, 2)) ==> Within(inner, Padded(box, 2))
  {}

  /** The box with this many pixels more on every side. */
  function Padded(box: Box, n: nat): Box {
    Box(box.minX - n, box.maxX + n, box.minY - n, box.maxY + n)
  }

  /** The box comes up to a centre: its sides are at the centre's pixel or beyond. */
  predicate Reaches(box: Box, cx: int, cy: int) {
    Within(Box(cx + 1, cx, cy + 1, cy), box)
  }

  lemma {:induction false} ReachedOn(s: Scene, before: Box, box: Box, cx: int, cy: int)
    requires GrownIn(s, before, box)
    ensures Reaches(before, cx, cy) ==> Reaches(box, cx, cy)
  {}

  /** What holds a detection's edges reaches its centre. */
  lemma {:induction false} HoldingReaches(s: Scene, box: Box, cx: int, cy: int)
    requires DetectedAt(s, cx, cy) && Within(Edges(s, cx, cy), box)
    ensures Reaches(box, cx, cy)
  {
    EdgesClose(s, cx, cy);
  }

  lemma {:induction false} StillInImage(s: Scene, before: Box, box: Box)
    requires InImage(before, s.w, s.h) && GrownIn(s, before, box)
    ensures InImage(box, s.w, s.h)
  {
    GrownInImage(before, box, s.g, s.w, s.h, s.threshold);
  }

  predicate DetectedAt(s: Scene, cx: int, cy: int) {
    cx >= 0 && cy >= 0 && Detected(s.g, s.w, s.h, s.threshold, cx, cy)
  }

  /** The edges of a detection. */
  function Edges(s: Scene, cx: int, cy: int): Box
    requires DetectedAt(s, cx, cy)
  {
    EdgesAt(s.g, s.w, s.h, s.threshold, cx, cy)
  }

  lemma {:induction false} EdgesClose(s: Scene, cx: int, cy: int)
    requires DetectedAt(s, cx, cy)
    ensures Within(Edges(s, cx, cy), Box(cx - 1, cx + 2, cy - 1, cy + 2)) && 1 <= cx < s.w - 1 && 1 <= cy < s.h - 1
    ensures Within(Box(cx + 1, cx, cy + 1, cy), Edges(s, cx, cy))
  {
    EdgesNear(s.g, s.w, s.h, s.threshold, cx, cy);
  }

  // ---------- windows ----------

  /** One centre examined. */
  function Examined(s: Scene, box: Box, cx: int, cy: int): (r: Box)
    ensures GrownIn(s, box, r)
    ensures DetectedAt(s, cx, cy) ==> Within(Edges(s, cx, cy), r)
    ensures !DetectedAt(s, cx, cy) ==> r == box
  {
    if DetectedAt(s, cx, cy) then
      GrownByDetection(box, s.g, s.w, s.h, s.threshold, cx, cy);
      Join(box, Edges(s, cx, cy))
    else
      GrownNot(s, box);
      box
  }

  /** The centres of row y of a window before its column x. */
  function RowScanned(s: Scene, box: Box, win: Window, y: int, x: int): (r: Box)
    ensures GrownIn(s, box, r)
    decreases x
  {
    if x <= 1 then
      GrownNot(s, box);
      box
    else
      var before := RowScanned(s, box, win, y, x - 1);
      var r := Examined(s, before, win.x + x - 1, win.y + y);
      GrownOn(s, box, before, r);
      r
  }

  /** The centres of a window's rows before row y. */
  function RowsScanned(s: Scene, box: Box, win: Window, y: int): (r: Box)
    ensures GrownIn(s, box, r)
    decreases y
  {
    if y <= 1 then
      GrownNot(s, box);
      box
    else
      var before := RowsScanned(s, box, win, y - 1);
      var r := RowScanned(s, before, win, y - 1, win.w - 1);
      GrownOn(s, box, before, r);
      r
  }

  lemma {:induction false} RowHas(s: Scene, box: Box, win: Window, y: int, x: int, cx: int)
    requires win.x < cx < win.x + x && DetectedAt(s, cx, win.y + y)
    ensures Within(Edges(s, cx, win.y + y), RowScanned(s, box, win, y, x))
    decreases x
  {
    hide DetectedAt, Edges, GrownIn, Within, Examined;
    var before := RowScanned(s, box, win, y, x - 1);
    if cx < win.x + x - 1 {
      RowHas(s, box, win, y, x - 1, cx);
      HeldOn(s, before, RowScanned(s, box, win, y, x), Edges(s, cx, win.y + y));
    }
  }

  /** The box holds the edges of every detection centred in the rows scanned. */
  lemma {:induction false} RowsHave(s: Scene, box: Box, win: Window, y: int, cx: int, cy: int)
    requires win.x < cx < win.x + win.w - 1 && win.y < cy < win.y + y && DetectedAt(s, cx, cy)
    ensures Within(Edges(s, cx, cy), RowsScanned(s, box, win, y))
    decreases y
  {
    hide DetectedAt, Edges, GrownIn, Within, RowScanned;
    var before := RowsScanned(s, box, win, y - 1);
    if cy < win.y + y - 1 {
      RowsHave(s, box, win, y - 1, cx, cy);
      HeldOn(s, before, RowsScanned(s, box, win, y), Edges(s, cx, cy));
    } else {
      RowHas(s, before, win, y - 1, win.w - 1, cx);
    }
  }

  predicate Skipped(box: Box, d: Window) {
    ExcludedX(box, d) && ExcludedY(box, d)
  }

  /** A window of the grid: left out, or narrowed, moved and scanned. */
  function AfterWindow(s: Scene, box: Box, d: Window): (r: Box)
    ensures GrownIn(s, box, r)
  {
    if Skipped(box, d) then
      GrownNot(s, box);
      box
    else
      var win := Shifted(Narrowed(box, d), s.w, s.h);
      RowsScanned(s, box, win, win.h - 1)
  }

  /** A centre of a window that narrowing leaves out has its edges within two pixels of the box, which reaches the
      centre itself. */
  lemma {:induction false} NarrowedKeepsNear(box: Box, d: Window, cx: nat, cy: nat, w: nat, h: nat)
    requires Centre(d, cx, cy) && !Skipped(box, d) && d.x >= 0 && d.y >= 0 && cx < w - 1 && cy < h - 1
    ensures || Centre(Shifted(Narrowed(box, d), w, h), cx, cy)
            || (Within(Box(cx - 1, cx + 2, cy - 1, cy + 2), Padded(box, 2)) && Reaches(box, cx, cy))
    ensures Narrowed(box, d) == d ==> Centre(Shifted(Narrowed(box, d), w, h), cx, cy)
  {}

  /** Two pixels is no overestimate of what narrowing may leave out. */
  lemma {:induction false} NarrowingTight()
    ensures var box, d, cx, cy := Box(10, 100, 0, 100), Window(5, 20, 15, 15), 9, 25;
            && Centre(d, cx, cy) && !Skipped(box, d) && !Centre(Shifted(Narrowed(box, d), 200, 200), cx, cy)
            && !Within(Box(cx - 1, cx + 2, cy - 1, cy + 2), Padded(box, 1))
  {}

  lemma {:induction false} CentreIs(win: Window, cx: nat, cy: nat)
    requires Centre(win, cx, cy)
    ensures win.x < cx < win.x + win.w - 1 && win.y < cy < win.y + win.h - 1
  {}

  /** No detection in a window is lost by more than two pixels, and none at all unless it is narrowed; the box reaches
      them all. */
  lemma {:induction false} WindowHas(s: Scene, box: Box, d: Window, cx: int, cy: int)
    requires DetectedAt(s, cx, cy) && Centre(d, cx, cy) && d.x >= 0 && d.y >= 0
    ensures Within(Edges(s, cx, cy), Padded(AfterWindow(s, box, d), 2)) && Reaches(AfterWindow(s, box, d), cx, cy)
    ensures Skipped(box, d) || Narrowed(box, d) == d ==> Within(Edges(s, cx, cy), AfterWindow(s, box, d))
  {
    hide DetectedAt, Edges, Narrowed, Shifted, GrownIn, Skipped, Centre, RowsScanned, Reaches;
    EdgesClose(s, cx, cy);
    var after := AfterWindow(s, box, d);
    ReachedOn(s, box, after, cx, cy);
    if Skipped(box, d) {
      SkippedHolds(box, d, cx, cy);
      HoldingReaches(s, box, cx, cy);
    } else {
      var win := Shifted(Narrowed(box, d), s.w, s.h);
      NarrowedKeepsNear(box, d, cx, cy, s.w, s.h);
      if Centre(win, cx, cy) {
        CentreIs(win, cx, cy);
        RowsHave(s, box, win, win.h - 1, cx, cy);
        HoldingReaches(s, after, cx, cy);
      } else {
        HeldOn(s, box, after, Edges(s, cx, cy));
      }
    }
  }

  lemma {:induction false} SkippedHolds(box: Box, d: Window, cx: nat, cy: nat)
    requires Skipped(box, d) && Centre(d, cx, cy)
    ensures Within(Box(cx - 1, cx + 2, cy - 1, cy + 2), box)
  {}

  // ---------- regions ----------

  /** The first windows of a row of the grid. */
  function AfterRow(s: Scene, box: Box, r: Region, ww: nat, wh: nat, row: nat, columns: nat): (b: Box)
    requires ww >= 3 && wh >= 3
    ensures GrownIn(s, box, b)
  {
    if columns == 0 then
      GrownNot(s, box);
      box
    else
      var before := AfterRow(s, box, r, ww, wh, row, columns - 1);
      var b := AfterWindow(s, before, Default(r, ww, wh, row, columns - 1));
      GrownOn(s, box, before, b);
      b
  }

  /** The first rows of the grid. */
  function AfterRows(s: Scene, box: Box, r: Region, ww: nat, wh: nat, rows: nat): (b: Box)
    requires ww >= 3 && wh >= 3 && r.x1 <= r.x2
    ensures GrownIn(s, box, b)
  {
    if rows == 0 then
      GrownNot(s, box);
      box
    else
      var before := AfterRows(s, box, r, ww, wh, rows - 1);
      var b := AfterRow(s, before, r, ww, wh, rows - 1, Steps(r.x2 - r.x1, ww - 2));
      GrownOn(s, box, before, b);
      b
  }

  /** A window as wide as the image is never narrowed. */
  lemma {:induction false} SpanningStays(s: Scene, box: Box, r: Region, ww: nat, wh: nat, row: nat)
    requires ww >= 3 && wh >= 3 && InImage(box, s.w, s.h) && r.x1 == 0 && r.x2 == s.w == ww
    ensures Narrowed(box, Default(r, ww, wh, row, 0)) == Default(r, ww, wh, row, 0)
  {
    hide Times;
    Distributes(0, 0, ww - 2);
  }

  lemma {:induction false} DefaultStarts(r: Region, ww: nat, wh: nat, row: nat, column: nat)
    requires ww >= 3 && wh >= 3 && r.x1 >= 0 && r.y1 >= 0
    ensures Default(r, ww, wh, row, column).x >= 0 && Default(r, ww, wh, row, column).y >= 0
  {
    hide Times;
  }

  lemma {:induction false} RowHasWindow(s: Scene, box: Box, r: Region, ww: nat, wh: nat, row: nat, columns: nat,
                                        column: nat, cx: int, cy: int)
    requires ww >= 3 && wh >= 3 && r.x1 >= 0 && r.y1 >= 0 && column < columns && DetectedAt(s, cx, cy)
    requires Centre(Default(r, ww, wh, row, column), cx, cy)
    ensures Within(Edges(s, cx, cy), Padded(AfterRow(s, box, r, ww, wh, row, columns), 2))
    ensures Reaches(AfterRow(s, box, r, ww, wh, row, columns), cx, cy)
    ensures InImage(box, s.w, s.h) && r.x1 == 0 && r.x2 == s.w == ww && column == 0 ==>
      Within(Edges(s, cx, cy), AfterRow(s, box, r, ww, wh, row, columns))
  {
    hide DetectedAt, Edges, Default, AfterWindow, Narrowed, Skipped, GrownIn, Within, Padded, Centre, InImage, Reaches;
    var before, after := AfterRow(s, box, r, ww, wh, row, columns - 1), AfterRow(s, box, r, ww, wh, row, columns);
    if column < columns - 1 {
      RowHasWindow(s, box, r, ww, wh, row, columns - 1, column, cx, cy);
      HeldOn(s, before, after, Edges(s, cx, cy));
      ReachedOn(s, before, after, cx, cy);
    } else {
      DefaultStarts(r, ww, wh, row, column);
      WindowHas(s, before, Default(r, ww, wh, row, column), cx, cy);
      if InImage(box, s.w, s.h) && r.x1 == 0 && r.x2 == s.w == ww && column == 0 {
        SpanningStays(s, box, r, ww, wh, row);
      }
    }
  }

  lemma {:induction false} RowsHaveWindow(s: Scene, box: Box, r: Region, ww: nat, wh: nat, rows: nat, row: nat,
                                          column: nat, cx: int, cy: int)
    requires ww >= 3 && wh >= 3 && 0 <= r.x1 <= r.x2 && r.y1 >= 0 && row < rows && column < Steps(r.x2 - r.x1, ww - 2)
    requires DetectedAt(s, cx, cy) && Centre(Default(r, ww, wh, row, column), cx, cy)
    ensures Within(Edges(s, cx, cy), Padded(AfterRows(s, box, r, ww, wh, rows), 2))
    ensures Reaches(AfterRows(s, box, r, ww, wh, rows), cx, cy)
    ensures InImage(box, s.w, s.h) && r.x1 == 0 && r.x2 == s.w == ww && column == 0 ==>
      Within(Edges(s, cx, cy), AfterRows(s, box, r, ww, wh, rows))
  {
    hide DetectedAt, Edges, Default, AfterRow, Steps, GrownIn, Within, Padded, Centre, InImage, Reaches;
    var before := AfterRows(s, box, r, ww, wh, rows - 1);
    if row < rows - 1 {
      RowsHaveWindow(s, box, r, ww, wh, rows - 1, row, column, cx, cy);
      HeldOn(s, before, AfterRows(s, box, r, ww, wh, rows), Edges(s, cx, cy));
      ReachedOn(s, before, AfterRows(s, box, r, ww, wh, rows), cx, cy);
    } else {
      if InImage(box, s.w, s.h) { StillInImage(s, box, before); }
      RowHasWindow(s, before, r, ww, wh, row, Steps(r.x2 - r.x1, ww - 2), column, cx, cy);
    }
  }

  /** A range made at least this long, a step to either side at a time, as far as the limits allow. */
  function Widened(lo: int, hi: int, least: nat, limit: nat): (range: (int, int))
    requires 0 <= lo < hi <= limit
    ensures 0 <= range.0 <= lo && hi <= range.1 <= limit
    ensures range.1 - range.0 >= least || (range.0 == 0 && range.1 == limit)
    ensures range.1 - range.0 <= Max(hi - lo, least + 1)
    ensures lo - range.0 == range.1 - hi || range.0 == 0 || range.1 == limit
    decreases limit - (hi - lo)
  {
    if hi - lo < least && (lo > 0 || hi < limit) then
      Widened(if lo > 0 then lo - 1 else 0, Min(limit, hi + 1), least, limit)
    else (lo, hi)
  }

  /** A region to scan seen from an edge (1 top, 2 right, 3 bottom, 4 left, 0 none), in fractions of the image's
      size. */
  datatype ScanRegion = ScanRegion(edge: int, xa: real, xb: real, ya: real, yb: real)

  predicate RunsForward(region: ScanRegion) {
    region.xa <= region.xb && region.ya <= region.yb
  }

  /** The rectangle a region stands for, given what is known. */
  function Rectangle(s: Scene, box: Box, region: ScanRegion): (r: Region)
    requires RunsForward(region) && InImage(box, s.w, s.h)
    ensures 0 <= r.x1 <= r.x2 <= s.w && 0 <= r.y1 <= r.y2 <= s.h
  {
    SnappedInImage(s.w, s.h, region.xa, region.xb, region.ya, region.yb, region.edge, box);
    Snapped(Percents(s.w, s.h, region.xa, region.xb, region.ya, region.yb), region.edge, box, s.w, s.h)
  }

  function LeastWidth(edge: int): nat {
    if edge == 2 || edge == 4 then 3 else 7
  }

  function LeastHeight(edge: int): nat {
    if edge == 1 || edge == 3 then 3 else 7
  }

  function WideEnough(s: Scene, r: Region, edge: int): (wide: Region)
    requires 0 <= r.x1 < r.x2 <= s.w && 0 <= r.y1 < r.y2 <= s.h && s.w >= 3 && s.h >= 3
    ensures 0 <= wide.x1 <= r.x1 && r.x2 <= wide.x2 <= s.w && 0 <= wide.y1 <= r.y1 && r.y2 <= wide.y2 <= s.h
    ensures wide.x2 - wide.x1 >= 3 && wide.y2 - wide.y1 >= 3
  {
    var (y1, y2) := Widened(r.y1, r.y2, LeastHeight(edge), s.h);
    var (x1, x2) := Widened(r.x1, r.x2, LeastWidth(edge), s.w);
    Region(x1, x2, y1, y2)
  }

  /** The grid over a region. */
  function AfterGrid(s: Scene, box: Box, wide: Region, edge: int): (b: Box)
    requires wide.x2 - wide.x1 >= 3 && wide.y2 - wide.y1 >= 3
    ensures GrownIn(s, box, b)
  {
    WindowsFitBuffer(wide.x2 - wide.x1, wide.y2 - wide.y1, edge);
    var ww := WindowWidth(wide.x2 - wide.x1, edge);
    var wh := WindowHeight(wide.y2 - wide.y1, ww);
    AfterRows(s, box, wide, ww, wh, Steps(wide.y2 - wide.y1, wh - 2))
  }

  /** A region: nothing to do, or made wide enough and scanned by its grid. */
  function AfterRegion(s: Scene, box: Box, region: ScanRegion): (b: Box)
    requires RunsForward(region) && InImage(box, s.w, s.h) && s.w >= 3 && s.h >= 3
    ensures GrownIn(s, box, b) && InImage(b, s.w, s.h)
  {
    var r := Rectangle(s, box, region);
    var b := if r.x1 == r.x2 || r.y1 == r.y2 then GrownNot(s, box); box
             else AfterGrid(s, box, WideEnough(s, r, region.edge), region.edge);
    StillInImage(s, box, b);
    b
  }

  function Whole(r: Region): Window {
    Window(r.x1, r.y1, r.x2 - r.x1, r.y2 - r.y1)
  }

  lemma {:induction false} GridHas(s: Scene, box: Box, wide: Region, edge: int, cx: int, cy: int)
    requires wide.x2 - wide.x1 >= 3 && wide.y2 - wide.y1 >= 3 && wide.x1 >= 0 && wide.y1 >= 0
    requires DetectedAt(s, cx, cy) && Centre(Whole(wide), cx, cy)
    ensures Within(Edges(s, cx, cy), Padded(AfterGrid(s, box, wide, edge), 2))
    ensures Reaches(AfterGrid(s, box, wide, edge), cx, cy)
    ensures InImage(box, s.w, s.h) && wide.x1 == 0 && wide.x2 == s.w && WindowWidth(s.w, edge) == s.w ==>
      Within(Edges(s, cx, cy), AfterGrid(s, box, wide, edge))
  {
    hide DetectedAt, Edges, Default, Steps, AfterRows, GrownIn, Within, Padded, InImage, WindowWidth, WindowHeight,
      Reaches;
    WindowsFitBuffer(wide.x2 - wide.x1, wide.y2 - wide.y1, edge);
    var ww := WindowWidth(wide.x2 - wide.x1, edge);
    var wh := WindowHeight(wide.y2 - wide.y1, ww);
    CentreIsNat(s, cx, cy);
    var row, column := WindowsCover(wide, ww, wh, cx, cy);
    StepsReach(wide.y2 - wide.y1, wh - 2, row);
    StepsReach(wide.x2 - wide.x1, ww - 2, column);
    if ww == wide.x2 - wide.x1 { OnlyColumn(wide, ww, wh, row, column, cx, cy); }
    RowsHaveWindow(s, box, wide, ww, wh, Steps(wide.y2 - wide.y1, wh - 2), row, column, cx, cy);
  }

  lemma {:induction false} CentreIsNat(s: Scene, cx: int, cy: int)
    requires DetectedAt(s, cx, cy)
    ensures cx >= 0 && cy >= 0
  {}

  lemma {:induction false} OnlyColumn(r: Region, ww: nat, wh: nat, row: nat, column: nat, cx: nat, cy: nat)
    requires ww >= 3 && wh >= 3 && Centre(Default(r, ww, wh, row, column), cx, cy) && cx < r.x2 - 1 && ww == r.x2 - r.x1
    ensures column == 0
  {
    hide Times;
    Distributes(1, 0, ww - 2);
    if column > 0 { Monotone(1, column, ww - 2); }
  }

  /** In the region as it is scanned, made wide enough, the box comes to reach every detection. */
  lemma {:induction false} RegionReaches(s: Scene, box: Box, region: ScanRegion, cx: int, cy: int)
    requires RunsForward(region) && InImage(box, s.w, s.h) && s.w >= 3 && s.h >= 3 && DetectedAt(s, cx, cy)
    requires Rectangle(s, box, region).x1 < Rectangle(s, box, region).x2
      && Rectangle(s, box, region).y1 < Rectangle(s, box, region).y2
    requires Centre(Whole(WideEnough(s, Rectangle(s, box, region), region.edge)), cx, cy)
    ensures Reaches(AfterRegion(s, box, region), cx, cy)
  {
    hide DetectedAt, Edges, AfterGrid, Widened, Rectangle, Centre, Reaches, Within, Padded, GrownIn;
    GridHas(s, box, WideEnough(s, Rectangle(s, box, region), region.edge), region.edge, cx, cy);
  }

  /** Wherever a search looks, no detection there ends up more than two pixels outside the box; none is missed in a
      region as wide as the image when one window spans it. */
  lemma {:induction false} RegionHas(s: Scene, box: Box, region: ScanRegion, cx: int, cy: int)
    requires RunsForward(region) && InImage(box, s.w, s.h) && s.w >= 3 && s.h >= 3
    requires DetectedAt(s, cx, cy) && Centre(Whole(Rectangle(s, box, region)), cx, cy)
    ensures Within(Edges(s, cx, cy), Padded(AfterRegion(s, box, region), 2))
    ensures var r := Rectangle(s, box, region);
            r.x1 == 0 && r.x2 == s.w && WindowWidth(s.w, region.edge) == s.w ==>
              Within(Edges(s, cx, cy), AfterRegion(s, box, region))
  {
    hide DetectedAt, Edges, AfterGrid, Widened, WindowWidth, Rectangle;
    GridHas(s, box, WideEnough(s, Rectangle(s, box, region), region.edge), region.edge, cx, cy);
  }

  // ---------- the whole search ----------

  predicate Forward(regions: seq<ScanRegion>) {
    forall i :: 0 <= i < |regions| ==> RunsForward(regions[i])
  }

  function AfterRegions(s: Scene, box: Box, regions: seq<ScanRegion>): (b: Box)
    requires Forward(regions) && InImage(box, s.w, s.h) && s.w >= 3 && s.h >= 3
    ensures GrownIn(s, box, b) && InImage(b, s.w, s.h)
  {
    if regions == [] then
      GrownNot(s, box);
      box
    else
      var n := |regions| - 1;
      var before := AfterRegions(s, box, regions[..n]);
      var b := AfterRegion(s, before, regions[n]);
      GrownOn(s, box, before, b);
      b
  }

  /** No detection that any of the regions looked at ends up more than two pixels outside the box. */
  lemma {:induction false} RegionsHave(s: Scene, box: Box, regions: seq<ScanRegion>, i: nat, cx: int, cy: int)
    requires Forward(regions) && InImage(box, s.w, s.h) && s.w >= 3 && s.h >= 3 && i < |regions|
      && DetectedAt(s, cx, cy)
    requires Centre(Whole(Rectangle(s, AfterRegions(s, box, regions[..i]), regions[i])), cx, cy)
    ensures Within(Edges(s, cx, cy), Padded(AfterRegions(s, box, regions), 2))
  {
    hide DetectedAt, Edges, AfterRegion, Rectangle, Centre, GrownIn, Within, Padded, InImage, RunsForward;
    var n := |regions| - 1;
    if i < n {
      assert regions[..n][..i] == regions[..i];
      RegionsHave(s, box, regions[..n], i, cx, cy);
      HeldOn(s, AfterRegions(s, box, regions[..n]), AfterRegions(s, box, regions), Edges(s, cx, cy));
    } else {
      RegionHas(s, AfterRegions(s, box, regions[..n]), regions[n], cx, cy);
    }
  }

  /** Strips towards the middle, from the sides first. */
  const QUICK_STRIPS: seq<ScanRegion> := [
    ScanRegion(4, 0.0, 0.5, 0.5, 0.5), ScanRegion(2, 0.5, 1.0, 0.5, 0.5),
    ScanRegion(4, 0.0, 0.5, 0.677, 0.677), ScanRegion(2, 0.5, 1.0, 0.677, 0.677),
    ScanRegion(4, 0.0, 0.5, 0.333, 0.333), ScanRegion(2, 0.5, 1.0, 0.333, 0.333),
    ScanRegion(1, 0.5, 0.5, 0.0, 0.5), ScanRegion(1, 0.677, 0.677, 0.0, 0.5), ScanRegion(1, 0.333, 0.333, 0.0, 0.5),
    ScanRegion(3, 0.5, 0.5, 0.5, 1.0), ScanRegion(3, 0.677, 0.677, 0.5, 1.0), ScanRegion(3, 0.333, 0.333, 0.5, 1.0)]

  const EVERYTHING := ScanRegion(0, 0.0, 1.0, 0.0, 1.0)

  lemma {:induction false} StripsForward()
    ensures |QUICK_STRIPS| == 12 && Forward(QUICK_STRIPS) && Forward(QUICK_STRIPS[..4]) && RunsForward(EVERYTHING)
  {}

  function Empty(s: Scene): Box {
    Box(s.w, 0, s.h, 0)
  }

  lemma {:induction false} EmptyInImage(s: Scene)
    ensures InImage(Empty(s), s.w, s.h)
  {}

  /** What the strips find. */
  function AfterStrips(s: Scene): (b: Box)
    requires s.w >= 3 && s.h >= 3
    ensures GrownIn(s, Empty(s), b) && InImage(b, s.w, s.h)
  {
    StripsForward();
    EmptyInImage(s);
    AfterRegions(s, Empty(s), QUICK_STRIPS)
  }

  /** What lies beyond the sides of the box; the last share counts rows by the height, as the code has it. */
  function AreaOutside(s: Scene, box: Box): int
    requires InImage(box, s.w, s.h)
  {
    Times(box.minX, s.h) + Times(box.minY, s.w) + Times(s.w - box.maxX, s.h) + Times(s.h - box.maxY, s.h)
  }

  /** The strips leave so much that everything is searched at once. */
  predicate SearchesEverything(s: Scene)
    requires s.w >= 3 && s.h >= 3
  {
    AreaOutside(s, AfterStrips(s)) > Times(s.h, s.w)
  }

  /** What the whole search finds: after the strips either everything is searched, or the first four strips again. */
  function Found(s: Scene): (b: Box)
    requires s.w >= 3 && s.h >= 3
    ensures GrownIn(s, Empty(s), b) && GrownIn(s, AfterStrips(s), b) && InImage(b, s.w, s.h)
  {
    StripsForward();
    var strips := AfterStrips(s);
    var b := if SearchesEverything(s) then AfterRegion(s, strips, EVERYTHING)
             else AfterRegions(s, strips, QUICK_STRIPS[..4]);
    GrownOn(s, Empty(s), strips, b);
    b
  }

  /** The whole image counts as content when nothing was found. */
  function OrWhole(s: Scene, box: Box): Box {
    if box == Empty(s) then Box(0, s.w, 0, s.h) else box
  }

  /** The content of an image; images too small for a neighbourhood are all content. */
  function Content(s: Scene): Box {
    if s.w < 3 || s.h < 3 then Box(0, s.w, 0, s.h) else OrWhole(s, Found(s))
  }

  lemma {:induction false} WholeImage(s: Scene, box: Box)
    requires InImage(box, s.w, s.h)
    ensures RunsForward(EVERYTHING) && Rectangle(s, box, EVERYTHING) == Region(0, s.w, 0, s.h)
    ensures s.w <= 292 ==> WindowWidth(s.w, 0) == s.w
  {}

  /** When everything is searched, no detection in the image lies more than two pixels outside the box, whatever the
      image's size; in an image of at most 292 columns none lies outside at all. */
  lemma {:induction false} EverythingFound(s: Scene, cx: int, cy: int)
    requires s.w >= 3 && s.h >= 3 && SearchesEverything(s) && DetectedAt(s, cx, cy)
    ensures Within(Edges(s, cx, cy), Padded(Found(s), 2))
    ensures s.w <= 292 ==> Within(Edges(s, cx, cy), Found(s))
  {
    hide DetectedAt, Edges, AfterRegion, Rectangle, AfterStrips, WindowWidth;
    EdgesClose(s, cx, cy);
    WholeImage(s, AfterStrips(s));
    RegionHas(s, AfterStrips(s), EVERYTHING, cx, cy);
  }

  function BoxArea(w: int, h: int): int {
    w * h
  }

  /** The area counted is what lies outside the box, the corners twice; in an image that is not square it is off by the
      rows below the box times the difference of height and width. */
  lemma {:induction false} AreaOutsideIs(s: Scene, box: Box)
    requires InImage(box, s.w, s.h)
    ensures AreaOutside(s, box) ==
      BoxArea(s.w, s.h) - BoxArea(box.maxX - box.minX, box.maxY - box.minY)
      + BoxArea(s.w - (box.maxX - box.minX), s.h - (box.maxY - box.minY))
      + BoxArea(s.h - box.maxY, s.h - s.w)
  {
    var l, r, t, b, w, h := box.minX, box.maxX, box.minY, box.maxY, s.w, s.h;
    assert BoxArea(w, h) - BoxArea(r - l, b - t) + BoxArea(w - (r - l), h - (b - t)) ==
      2 * (w * h) - (r - l) * h - w * (b - t) by { Corners(w, h, r - l, b - t); }
    Strips(w, h, l, r, t, b);
  }

  lemma {:induction false} Corners(w: int, h: int, x: int, y: int)
    ensures BoxArea(w, h) - BoxArea(x, y) + BoxArea(w - x, h - y) == 2 * (w * h) - x * h - w * y
  {}

  lemma {:induction false} Strips(w: int, h: int, l: int, r: int, t: int, b: int)
    ensures l * h + t * w + (w - r) * h + (h - b) * h ==
            2 * (w * h) - (r - l) * h - w * (b - t) + BoxArea(h - b, h - w)
  {}

  lemma {:induction false} NothingFoundArea(s: Scene)
    requires s.w >= 3 && s.h >= 3 && AfterStrips(s) == Empty(s)
    ensures SearchesEverything(s)
  {
    hide Times, AfterStrips;
    assert Times(s.w, s.h) == Times(s.h, s.w) && Times(s.w, s.h) == s.w * s.h by { Sides(s.w, s.h); }
    assert Times(s.h, s.h) > 0 by { Sides(s.h, s.h); }
    assert Times(s.w, s.h) > 0 by { Sides(s.w, s.h); }
  }

  lemma {:induction false} Sides(w: nat, h: nat)
    ensures Times(w, h) == Times(h, w) == w * h && (w > 0 && h > 0 ==> Times(w, h) > 0)
  {}

  /** The search comes back with nothing exactly when there is nothing to detect anywhere: what the strips miss is found
      when everything is searched. */
  lemma {:induction false} NothingFoundIff(s: Scene)
    requires s.w >= 3 && s.h >= 3
    ensures Found(s) == Empty(s) <==> forall cx: nat, cy: nat :: !DetectedAt(s, cx, cy)
  {
    hide AfterRegion, Rectangle, AfterStrips, EdgesAt, Around, Response, SearchesEverything;
    if cx: nat, cy: nat :| DetectedAt(s, cx, cy) {
      if Found(s) == Empty(s) {
        NothingFoundArea(s);
        WholeReaches(s, cx, cy);
      }
    } else {
      forall cx: nat, cy: nat ensures !Detected(s.g, s.w, s.h, s.threshold, cx, cy) {
        assert !DetectedAt(s, cx, cy);
      }
    }
  }

  lemma {:induction false} WholeReaches(s: Scene, cx: nat, cy: nat)
    requires s.w >= 3 && s.h >= 3 && SearchesEverything(s) && DetectedAt(s, cx, cy)
    ensures Found(s) != Empty(s)
  {
    hide DetectedAt, Edges, AfterRegion, Rectangle, AfterStrips, Widened;
    EdgesClose(s, cx, cy);
    WholeImage(s, AfterStrips(s));
    RegionReaches(s, AfterStrips(s), EVERYTHING, cx, cy);
  }

  /** An image of one grey is all content. */
  lemma {:induction false} FlatImageIsWhole(s: Scene, v: byte)
    requires forall y, x :: 0 <= y < s.h && 0 <= x < s.w ==> s.g[y][x] == v
    ensures Content(s) == Box(0, s.w, 0, s.h)
  {
    if s.w >= 3 && s.h >= 3 {
      FlatFindsNothing(Empty(s), Found(s), s.g, s.w, s.h, s.threshold, v);
    }
  }

  // ---------- one step at a time ----------

  lemma {:induction false} NothingScanned(s: Scene, box: Box, win: Window, y: int)
    ensures RowsScanned(s, box, win, 1) == box && RowScanned(s, box, win, y, 1) == box
  {}

  lemma {:induction false} NextScanned(s: Scene, box: Box, win: Window, y: nat, x: nat)
    requires x >= 1
    ensures RowScanned(s, box, win, y, x + 1) == Examined(s, RowScanned(s, box, win, y, x), win.x + x, win.y + y)
  {}

  lemma {:induction false} NextRowScanned(s: Scene, box: Box, win: Window, y: nat)
    requires y >= 1
    ensures RowsScanned(s, box, win, y + 1) == RowScanned(s, RowsScanned(s, box, win, y), win, y, win.w - 1)
  {}

  lemma {:induction false} AfterWindowIs(s: Scene, box: Box, d: Window)
    ensures var win := Shifted(Narrowed(box, d), s.w, s.h);
            AfterWindow(s, box, d) ==
            if ExcludedX(box, d) && ExcludedY(box, d) then box else RowsScanned(s, box, win, win.h - 1)
  {}

  lemma {:induction false} NoColumnsYet(s: Scene, box: Box, r: Region, ww: nat, wh: nat, row: nat)
    requires ww >= 3 && wh >= 3
    ensures AfterRow(s, box, r, ww, wh, row, 0) == box
  {}

  lemma {:induction false} NextAfterRow(s: Scene, box: Box, r: Region, ww: nat, wh: nat, row: nat, columns: nat)
    requires ww >= 3 && wh >= 3
    ensures AfterRow(s, box, r, ww, wh, row, columns + 1) ==
            AfterWindow(s, AfterRow(s, box, r, ww, wh, row, columns), Default(r, ww, wh, row, columns))
  {}

  lemma {:induction false} NoRowsYet(s: Scene, box: Box, r: Region, ww: nat, wh: nat)
    requires ww >= 3 && wh >= 3 && r.x1 <= r.x2
    ensures AfterRows(s, box, r, ww, wh, 0) == box
  {}

  lemma {:induction false} NextAfterRows(s: Scene, box: Box, r: Region, ww: nat, wh: nat, rows: nat)
    requires ww >= 3 && wh >= 3 && r.x1 <= r.x2
    ensures AfterRows(s, box, r, ww, wh, rows + 1) ==
            AfterRow(s, AfterRows(s, box, r, ww, wh, rows), r, ww, wh, rows, Steps(r.x2 - r.x1, ww - 2))
  {}

  lemma {:induction false} RectangleIs(s: Scene, box: Box, region: ScanRegion)
    requires region.xa <= region.xb && region.ya <= region.yb && InImage(box, s.w, s.h)
    ensures RunsForward(region)
    ensures var r := Rectangle(s, box, region);
            && r == Snapped(Percents(s.w, s.h, region.xa, region.xb, region.ya, region.yb), region.edge, box, s.w, s.h)
            && 0 <= r.x1 <= r.x2 <= s.w && 0 <= r.y1 <= r.y2 <= s.h
  {}

  lemma {:induction false} AfterRegionIs(s: Scene, box: Box, region: ScanRegion)
    requires RunsForward(region) && InImage(box, s.w, s.h) && s.w >= 3 && s.h >= 3
    ensures var r := Rectangle(s, box, region);
            AfterRegion(s, box, region) == if r.x1 == r.x2 || r.y1 == r.y2 then box
                                           else AfterGrid(s, box, WideEnough(s, r, region.edge), region.edge)
  {}

  lemma {:induction false} WideEnoughIs(s: Scene, r: Region, edge: int)
    requires 0 <= r.x1 < r.x2 <= s.w && 0 <= r.y1 < r.y2 <= s.h && s.w >= 3 && s.h >= 3
    ensures var y, x := Widened(r.y1, r.y2, LeastHeight(edge), s.h), Widened(r.x1, r.x2, LeastWidth(edge), s.w);
            WideEnough(s, r, edge) == Region(x.0, x.1, y.0, y.1)
  {}

  lemma {:induction false} AfterGridIs(s: Scene, box: Box, wide: Region, edge: int, ww: nat, wh: nat)
    requires wide.x2 - wide.x1 >= 3 && wide.y2 - wide.y1 >= 3
    requires ww == WindowWidth(wide.x2 - wide.x1, edge) && ww >= 3 && wh == WindowHeight(wide.y2 - wide.y1, ww)
      && wh >= 3
    ensures AfterGrid(s, box, wide, edge) == AfterRows(s, box, wide, ww, wh, Steps(wide.y2 - wide.y1, wh - 2))
  {
    hide WindowWidth, WindowHeight, AfterRows, Steps, GrownIn;
  }

  lemma {:induction false} NoRegionsYet(s: Scene, box: Box, regions: seq<ScanRegion>)
    requires InImage(box, s.w, s.h) && s.w >= 3 && s.h >= 3
    ensures Forward(regions[..0]) && AfterRegions(s, box, regions[..0]) == box
  {}

  lemma {:induction false} NextAfterRegions(s: Scene, box: Box, regions: seq<ScanRegion>, i: nat)
    requires Forward(regions) && InImage(box, s.w, s.h) && s.w >= 3 && s.h >= 3 && i < |regions|
    ensures Forward(regions[..i]) && Forward(regions[..i + 1]) && RunsForward(regions[i])
    ensures regions[i].xa <= regions[i].xb && regions[i].ya <= regions[i].yb
    ensures AfterRegions(s, box, regions[..i + 1]) == AfterRegion(s, AfterRegions(s, box, regions[..i]), regions[i])
  {
    assert regions[..i + 1][..i] == regions[..i];
  }

  lemma {:induction false} AllRegions(regions: seq<ScanRegion>)
    ensures regions[..|regions|] == regions
  {}

  lemma {:induction false} AfterStripsIs(s: Scene)
    requires s.w >= 3 && s.h >= 3
    ensures Forward(QUICK_STRIPS) && InImage(Empty(s), s.w, s.h)
      && AfterStrips(s) == AfterRegions(s, Empty(s), QUICK_STRIPS)
  {}

  lemma {:induction false} EverythingIs(s: Scene)
    requires s.w >= 3 && s.h >= 3
    ensures SearchesEverything(s) <==> AreaOutside(s, AfterStrips(s)) > Times(s.h, s.w)
  {}

  lemma {:induction false} FoundIs(s: Scene)
    requires s.w >= 3 && s.h >= 3
    ensures RunsForward(EVERYTHING) && Forward(QUICK_STRIPS[..4]) && EVERYTHING == ScanRegion(0, 0.0, 1.0, 0.0, 1.0)
    ensures Found(s) == if SearchesEverything(s) then AfterRegion(s, AfterStrips(s), EVERYTHING)
                        else AfterRegions(s, AfterStrips(s), QUICK_STRIPS[..4])
  {}
}
