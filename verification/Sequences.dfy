// Reading a sequence from its end.

module Sequences {
  function Reversed<P>(row: seq<P>): (r: seq<P>)
    ensures |r| == |row| && forall x :: 0 <= x < |row| ==> r[x] == row[|row| - 1 - x]
  {
    seq(|row|, x requires 0 <= x < |row| => row[|row| - 1 - x])
  }

  lemma {:induction false} ReversedTwice<P>(row: seq<P>)
    ensures Reversed(Reversed(row)) == row
  {}
}
