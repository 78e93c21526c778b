// Pictures as rows of pixels, and what transposing and flipping them means.

module PictureSpec {
  import opened Sequences

  /** Rows of pixels, this many to a row. */
  type Picture<P> = seq<seq<P>>

  predicate Wide<P>(p: Picture<P>, w: nat) {
    forall y :: 0 <= y < |p| ==> |p[y]| == w
  }

  /** Columns become rows. */
  function Transposed<P>(p: Picture<P>, w: nat): (t: Picture<P>)
    requires Wide(p, w)
    ensures |t| == w && Wide(t, |p|)
    ensures forall y, x :: 0 <= y < |p| && 0 <= x < w ==> t[x][y] == p[y][x]
  {
    seq(w, x requires 0 <= x < w => seq(|p|, y requires 0 <= y < |p| => p[y][x]))
  }

  /** Top row to the bottom. */
  function FlippedVertically<P>(p: Picture<P>): (f: Picture<P>)
    ensures |f| == |p|
  {
    Reversed(p)
  }

  /** Left column to the right. */
  function FlippedHorizontally<P>(p: Picture<P>): (f: Picture<P>)
    ensures |f| == |p| && forall y :: 0 <= y < |p| ==> f[y] == Reversed(p[y])
  {
    seq(|p|, y requires 0 <= y < |p| => Reversed(p[y]))
  }

  /** Transposing back gives the picture again. */
  lemma {:induction false} TransposedTwice<P>(p: Picture<P>, w: nat)
    requires Wide(p, w)
    ensures Transposed(Transposed(p, w), |p|) == p
  {
    forall y | 0 <= y < |p| ensures Transposed(Transposed(p, w), |p|)[y] == p[y] {
      assert |p[y]| == w;
    }
  }

  /** Either flip is its own inverse, and it does not matter which comes first. */
  lemma {:induction false} FlippedTwice<P>(p: Picture<P>)
    ensures FlippedVertically(FlippedVertically(p)) == p
    ensures FlippedHorizontally(FlippedHorizontally(p)) == p
    ensures FlippedHorizontally(FlippedVertically(p)) == FlippedVertically(FlippedHorizontally(p))
  {
    ReversedTwice(p);
    forall y | 0 <= y < |p| ensures FlippedHorizontally(FlippedHorizontally(p))[y] == p[y] {
      ReversedTwice(p[y]);
    }
  }

  /** Flipping sideways and transposing is transposing and flipping upside down. */
  lemma {:induction false} TransposeTurnsFlip<P>(p: Picture<P>, w: nat)
    requires Wide(p, w)
    ensures Wide(FlippedHorizontally(p), w)
    ensures Transposed(FlippedHorizontally(p), w) == FlippedVertically(Transposed(p, w))
  {
    var t := Transposed(FlippedHorizontally(p), w);
    forall x | 0 <= x < w ensures t[x] == FlippedVertically(Transposed(p, w))[x] {
      forall y | 0 <= y < |p| ensures t[x][y] == Transposed(p, w)[w - 1 - x][y] {
        assert FlippedHorizontally(p)[y] == Reversed(p[y]);
        assert Reversed(p[y])[x] == p[y][w - 1 - x];
      }
    }
  }
}
