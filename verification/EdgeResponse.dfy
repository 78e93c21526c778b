// What the response of a neighbourhood and the edges in it mean: turned and
// mirrored neighbourhoods, single pixels, and steps.

module EdgeResponse {
  import opened Numbers
  import opened Memory
  import opened EdgeDetection

  function Turned(m: Matrix): Matrix {
    [m[0], m[3], m[6], m[1], m[4], m[7], m[2], m[5], m[8]]
  }

  function LeftRight(m: Matrix): Matrix {
    [m[2], m[1], m[0], m[5], m[4], m[3], m[8], m[7], m[6]]
  }

  /** Rows and columns exchanged, or left and right: the response stays. */
  lemma {:induction false} ResponseTurns(m: Matrix)
    ensures Response(Turned(m)) == Response(m) && Response(LeftRight(m)) == Response(m)
  {}

  /** Of one grey but for the pixel at i, which differs by v. */
  predicate OnePixel(m: Matrix, u: byte, i: nat, v: int) {
    forall j :: 0 <= j < 9 ==> m[j] as int == if j == i then u + v else u
  }

  /** A pixel responds by six at a corner and by ten at a side; the middle one does not. */
  lemma {:induction false} PixelResponds(m: Matrix, u: byte, i: nat, v: int)
    requires i < 9 && OnePixel(m, u, i, v)
    ensures Response(m) == if i == 4 then 0 else if i % 2 == 0 then 6 * Abs(v) else 10 * Abs(v)
  {
    var a: seq<int> := m;
    assert a == [m[0], m[1], m[2], m[3], m[4], m[5], m[6], m[7], m[8]];
  }

  /** Each column of one grey, or each row: the response is sixteen times the outer ones' difference. */
  lemma {:induction false} StepResponds(m: Matrix)
    ensures m[0] == m[3] == m[6] && m[1] == m[4] == m[7] && m[2] == m[5] == m[8] ==>
      Response(m) == 16 * Abs(m[0] as int - m[2] as int)
    ensures m[0] == m[1] == m[2] && m[3] == m[4] == m[5] && m[6] == m[7] == m[8] ==>
      Response(m) == 16 * Abs(m[0] as int - m[6] as int)
  {}

  /** Brighter or darker by the same everywhere, or inverted, it responds the same. */
  lemma {:induction false} ResponseShifts(m: Matrix, n: Matrix, v: int)
    requires (forall j :: 0 <= j < 9 ==> n[j] as int == m[j] + v)
      || (forall j :: 0 <= j < 9 ==> n[j] as int == v - m[j])
    ensures Response(n) == Response(m)
  {
    var a: seq<int>, b: seq<int> := m, n;
    assert a == [m[0], m[1], m[2], m[3], m[4], m[5], m[6], m[7], m[8]];
    assert b == [n[0], n[1], n[2], n[3], n[4], n[5], n[6], n[7], n[8]];
  }

  // ---------- edges ----------

  /** An edge in row my between the pixels in columns x - 1 and x. */
  predicate Across(m: Matrix, threshold: nat, my: nat, x: nat)
    requires my < 3 && 1 <= x <= 2
  {
    Differ(m, my * 3 + x - 1, my * 3 + x, threshold)
  }

  /** An edge in column mx between the pixels in rows y - 1 and y. */
  predicate Down(m: Matrix, threshold: nat, mx: nat, y: nat)
    requires mx < 3 && 1 <= y <= 2
  {
    Differ(m, mx + (y - 1) * 3, mx + y * 3, threshold)
  }

  /** Some row has an edge there. */
  predicate AnyAcross(m: Matrix, threshold: nat, x: nat)
    requires 1 <= x <= 2
  {
    Across(m, threshold, 0, x) || Across(m, threshold, 1, x) || Across(m, threshold, 2, x)
  }

  predicate AnyDown(m: Matrix, threshold: nat, y: nat)
    requires 1 <= y <= 2
  {
    Down(m, threshold, 0, y) || Down(m, threshold, 1, y) || Down(m, threshold, 2, y)
  }

  /** Row my has an edge. */
  predicate RowHasEdge(m: Matrix, threshold: nat, my: nat)
    requires my < 3
  {
    Across(m, threshold, my, 1) || Across(m, threshold, my, 2)
  }

  predicate ColumnHasEdge(m: Matrix, threshold: nat, mx: nat)
    requires mx < 3
  {
    Down(m, threshold, mx, 1) || Down(m, threshold, mx, 2)
  }

  /** The local box: the least and the greatest of the edges across rows and of the sides of the columns with edges down
      them, and the same of the edges down columns and the sides of the rows with edges across them. */
  lemma {:induction false} LocalIs(m: Matrix, threshold: nat)
    ensures Local(m, threshold).minX ==
            if ColumnHasEdge(m, threshold, 0) then 0
            else if ColumnHasEdge(m, threshold, 1) || AnyAcross(m, threshold, 1) then 1 else 2
    ensures Local(m, threshold).maxX ==
            if ColumnHasEdge(m, threshold, 2) then 3
            else if ColumnHasEdge(m, threshold, 1) || AnyAcross(m, threshold, 2) then 2 else 1
    ensures Local(m, threshold).minY ==
            if RowHasEdge(m, threshold, 0) then 0
            else if RowHasEdge(m, threshold, 1) || AnyDown(m, threshold, 1) then 1 else 2
    ensures Local(m, threshold).maxY ==
            if RowHasEdge(m, threshold, 2) then 3
            else if RowHasEdge(m, threshold, 1) || AnyDown(m, threshold, 2) then 2 else 1
  {
    hide AlongRow, AlongColumn, Across, Down;
    LocalSteps(m, threshold);
    forall my: nat, box | my < 3 ensures AlongRow(m, threshold, box, my) == RowStep(m, threshold, box, my) {
      RowStepIs(m, threshold, box, my);
    }
    forall mx: nat, box | mx < 3 ensures AlongColumn(m, threshold, box, mx) == ColumnStep(m, threshold, box, mx) {
      ColumnStepIs(m, threshold, box, mx);
    }
  }

  function RowStep(m: Matrix, threshold: nat, box: Box, my: nat): Box
    requires my < 3
  {
    var left, right := Across(m, threshold, my, 1), Across(m, threshold, my, 2);
    Box(if left then Min(box.minX, 1) else if right then Min(box.minX, 2) else box.minX,
        if right then Max(box.maxX, 2) else if left then Max(box.maxX, 1) else box.maxX,
        if left || right then Min(box.minY, my) else box.minY,
        if left || right then Max(box.maxY, my + 1) else box.maxY)
  }

  function ColumnStep(m: Matrix, threshold: nat, box: Box, mx: nat): Box
    requires mx < 3
  {
    var upper, lower := Down(m, threshold, mx, 1), Down(m, threshold, mx, 2);
    Box(if upper || lower then Min(box.minX, mx) else box.minX,
        if upper || lower then Max(box.maxX, mx + 1) else box.maxX,
        if upper then Min(box.minY, 1) else if lower then Min(box.minY, 2) else box.minY,
        if lower then Max(box.maxY, 2) else if upper then Max(box.maxY, 1) else box.maxY)
  }

  lemma {:induction false} RowStepIs(m: Matrix, threshold: nat, box: Box, my: nat)
    requires my < 3
    ensures AlongRow(m, threshold, box, my) == RowStep(m, threshold, box, my)
  {}

  lemma {:induction false} ColumnStepIs(m: Matrix, threshold: nat, box: Box, mx: nat)
    requires mx < 3
    ensures AlongColumn(m, threshold, box, mx) == ColumnStep(m, threshold, box, mx)
  {}

  lemma {:induction false} LocalSteps(m: Matrix, threshold: nat)
    ensures var a := AlongRow(m, threshold, Box(2, 1, 2, 1), 0);
            var c := AlongRow(m, threshold, AlongRow(m, threshold, a, 1), 2);
            var e := AlongColumn(m, threshold, AlongColumn(m, threshold, c, 0), 1);
            Local(m, threshold) == AlongColumn(m, threshold, e, 2)
  {
    hide AlongRow, AlongColumn;
    assert Rows(m, threshold, 1) == AlongRow(m, threshold, Box(2, 1, 2, 1), 0);
    assert Rows(m, threshold, 3) == AlongRow(m, threshold, Rows(m, threshold, 2), 2);
    assert Columns(m, threshold, 1) == AlongColumn(m, threshold, Rows(m, threshold, 3), 0);
    assert Columns(m, threshold, 3) == AlongColumn(m, threshold, Columns(m, threshold, 2), 2);
  }

  /** A box of a neighbourhood seen with left and right exchanged. */
  function BoxLeftRight(b: Box): Box {
    Box(3 - b.maxX, 3 - b.minX, b.minY, b.maxY)
  }

  function BoxTurned(b: Box): Box {
    Box(b.minY, b.maxY, b.minX, b.maxX)
  }

  /** The edges turn and mirror with the neighbourhood. */
  lemma {:induction false} LocalTurns(m: Matrix, threshold: nat)
    ensures Local(Turned(m), threshold) == BoxTurned(Local(m, threshold))
    ensures Local(LeftRight(m), threshold) == BoxLeftRight(Local(m, threshold))
  {
    hide Local, Across, Down, Turned, LeftRight;
    LocalIs(m, threshold);
    LocalIs(Turned(m), threshold);
    LocalIs(LeftRight(m), threshold);
    RowTurns(m, threshold, 0);
    RowTurns(m, threshold, 1);
    RowTurns(m, threshold, 2);
  }

  lemma {:induction false} RowTurns(m: Matrix, threshold: nat, k: nat)
    requires k < 3
    ensures Across(Turned(m), threshold, k, 1) == Down(m, threshold, k, 1)
    ensures Across(Turned(m), threshold, k, 2) == Down(m, threshold, k, 2)
    ensures Down(Turned(m), threshold, k, 1) == Across(m, threshold, k, 1)
    ensures Down(Turned(m), threshold, k, 2) == Across(m, threshold, k, 2)
    ensures Across(LeftRight(m), threshold, k, 1) == Across(m, threshold, k, 2)
    ensures Across(LeftRight(m), threshold, k, 2) == Across(m, threshold, k, 1)
    ensures Down(LeftRight(m), threshold, k, 1) == Down(m, threshold, 2 - k, 1)
    ensures Down(LeftRight(m), threshold, k, 2) == Down(m, threshold, 2 - k, 2)
  {
    hide Across, Down, Turned, LeftRight;
    EdgeTurns(m, threshold, k, 1);
    EdgeTurns(m, threshold, k, 2);
    EdgeMirrors(m, threshold, k, 1);
    EdgeMirrors(m, threshold, k, 2);
  }

  lemma {:induction false} EdgeTurns(m: Matrix, threshold: nat, k: nat, x: nat)
    requires k < 3 && 1 <= x <= 2
    ensures Across(Turned(m), threshold, k, x) == Down(m, threshold, k, x)
    ensures Down(Turned(m), threshold, k, x) == Across(m, threshold, k, x)
  {}

  lemma {:induction false} EdgeMirrors(m: Matrix, threshold: nat, k: nat, x: nat)
    requires k < 3 && 1 <= x <= 2
    ensures Across(LeftRight(m), threshold, k, x) == Across(m, threshold, k, 3 - x)
    ensures Down(LeftRight(m), threshold, k, x) == Down(m, threshold, 2 - k, x)
  {}
}
