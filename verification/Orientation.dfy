// Rotations and orientations as the graph expands them: chains of flips and
// transposes.

module Orientation {
  import opened PictureSpec
  import opened Sequences

  function Rotated90<P>(p: Picture<P>, w: nat): (r: Picture<P>)
    requires Wide(p, w)
    ensures |r| == w && Wide(r, |p|)
  {
    FlippedVertically(Transposed(p, w))
  }

  function Rotated180<P>(p: Picture<P>, w: nat): (r: Picture<P>)
    requires Wide(p, w)
    ensures |r| == |p| && Wide(r, w)
  {
    FlippedHorizontally(FlippedVertically(p))
  }

  function Rotated270<P>(p: Picture<P>, w: nat): (r: Picture<P>)
    requires Wide(p, w)
    ensures |r| == w && Wide(r, |p|)
  {
    Transposed(FlippedVertically(p), w)
  }

  /** The flag exchanges rows and columns. */
  predicate Swaps(flag: int) {
    5 <= flag <= 8
  }

  /** The nodes that stand in for each orientation flag. */
  function Oriented<P>(p: Picture<P>, w: nat, flag: int): (r: Picture<P>)
    requires Wide(p, w)
    ensures |r| == (if Swaps(flag) then w else |p|) && Wide(r, if Swaps(flag) then |p| else w)
  {
    if flag == 7 then Transposed(Rotated180(p, w), w)
    else if flag == 8 then Rotated90(p, w)
    else if flag == 6 then Rotated270(p, w)
    else if flag == 5 then Transposed(p, w)
    else if flag == 4 then FlippedVertically(p)
    else if flag == 3 then Rotated180(p, w)
    else if flag == 2 then FlippedHorizontally(p)
    else p
  }

  /** Where a pixel of the oriented picture comes from: the row and column that TIFF 6.0 gives each orientation. */
  function SourceRow(h: nat, flag: int, y: nat, x: nat): int {
    if flag == 3 || flag == 4 then h - 1 - y
    else if flag == 5 || flag == 8 then x
    else if flag == 6 || flag == 7 then h - 1 - x
    else y
  }

  function SourceColumn(w: nat, flag: int, y: nat, x: nat): int {
    if flag == 2 || flag == 3 then w - 1 - x
    else if flag == 5 || flag == 6 then y
    else if flag == 7 || flag == 8 then w - 1 - y
    else x
  }

  /** The chain of nodes moves every pixel to the place its orientation gives it. */
  lemma {:induction false} OrientedPixel<P>(p: Picture<P>, w: nat, flag: int, y: nat, x: nat)
    requires Wide(p, w) && y < (if Swaps(flag) then w else |p|) && x < (if Swaps(flag) then |p| else w)
    ensures 0 <= SourceRow(|p|, flag, y, x) < |p| && 0 <= SourceColumn(w, flag, y, x) < w
    ensures Oriented(p, w, flag)[y][x] == p[SourceRow(|p|, flag, y, x)][SourceColumn(w, flag, y, x)]
  {
    assert flag == 2 ==> Oriented(p, w, flag)[y] == Reversed(p[y]);
    assert flag == 3 ==> Oriented(p, w, flag)[y] == Reversed(p[|p| - 1 - y]);
    if flag == 7 {
      assert Rotated180(p, w)[x] == Reversed(p[|p| - 1 - x]);
    }
  }

  /** The flag that undoes an orientation. */
  function Undoing(flag: int): int {
    if flag == 6 then 8 else if flag == 8 then 6 else flag
  }

  /** Every orientation is undone by one orientation. */
  lemma {:induction false} OrientedBack<P>(p: Picture<P>, w: nat, flag: int)
    requires Wide(p, w)
    ensures Oriented(Oriented(p, w, flag), if Swaps(flag) then |p| else w, Undoing(flag)) == p
  {
    hide Oriented;
    var once, v := Oriented(p, w, flag), if Swaps(flag) then |p| else w;
    var twice := Oriented(once, v, Undoing(flag));
    forall y | 0 <= y < |p| ensures twice[y] == p[y] {
      forall x | 0 <= x < w ensures twice[y][x] == p[y][x] {
        OrientedPixel(once, v, Undoing(flag), y, x);
        OrientedPixel(p, w, flag, SourceRow(|once|, Undoing(flag), y, x), SourceColumn(v, Undoing(flag), y, x));
      }
    }
  }

  /** Two quarter turns are a half turn, four are none, and one is undone by three. */
  lemma {:induction false} QuarterTurns<P>(p: Picture<P>, w: nat)
    requires Wide(p, w)
    ensures Rotated90(Rotated90(p, w), |p|) == Rotated180(p, w)
    ensures Rotated180(Rotated180(p, w), w) == p
    ensures Rotated270(Rotated90(p, w), |p|) == p == Rotated90(Rotated270(p, w), |p|)
  {
    HalfTurn(p, w);
    OrientedBack(p, w, 3);
    OrientedBack(p, w, 8);
    OrientedBack(p, w, 6);
  }

  lemma {:induction false} HalfTurn<P>(p: Picture<P>, w: nat)
    requires Wide(p, w)
    ensures Rotated90(Rotated90(p, w), |p|) == Rotated180(p, w)
  {
    hide Oriented, Rotated90, Rotated180, Rotated270, Transposed, FlippedVertically, FlippedHorizontally;
    TurnsByFlag(p, w);
    TurnsByFlag(Rotated90(p, w), |p|);
    var r, half := Rotated90(Rotated90(p, w), |p|), Rotated180(p, w);
    forall y | 0 <= y < |p| ensures r[y] == half[y] {
      forall x | 0 <= x < w ensures r[y][x] == half[y][x] {
        OrientedPixel(Rotated90(p, w), |p|, 8, y, x);
        OrientedPixel(p, w, 8, x, |p| - 1 - y);
        OrientedPixel(p, w, 3, y, x);
      }
    }
  }

  lemma {:induction false} TurnsByFlag<P>(p: Picture<P>, w: nat)
    requires Wide(p, w)
    ensures Oriented(p, w, 8) == Rotated90(p, w) && Oriented(p, w, 3) == Rotated180(p, w)
      && Oriented(p, w, 6) == Rotated270(p, w)
  {}
}
