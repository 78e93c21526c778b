// The weights of a contribution window: filled from the filter, adjusted to
// total one or to the sharpening asked for, and trimmed of end zeros.

module ContributionWeights {
  import opened Numbers
  import opened WeightedRows
  import opened ContributionWindows

  // ---------- masses ----------

  function NegativePart(w: real): (part: real)
    ensures part >= 0.0
  {
    if w < 0.0 then -w else 0.0
  }

  function PositivePart(w: real): (part: real)
    ensures part >= 0.0
  {
    if w < 0.0 then 0.0 else w
  }

  /** Minus the total of the negative weights. */
  function NegativeMass(ws: seq<real>): (m: real)
    ensures m >= 0.0
  {
    if ws == [] then 0.0 else NegativeMass(ws[..|ws| - 1]) + NegativePart(ws[|ws| - 1])
  }

  /** The total of the positive weights. */
  function PositiveMass(ws: seq<real>): (m: real)
    ensures m >= 0.0
  {
    if ws == [] then 0.0 else PositiveMass(ws[..|ws| - 1]) + PositivePart(ws[|ws| - 1])
  }

  lemma {:induction false} TotalIsMasses(ws: seq<real>)
    ensures Total(ws) == PositiveMass(ws) - NegativeMass(ws)
  {
    if ws != [] { TotalIsMasses(ws[..|ws| - 1]); }
  }

  /** The weight the filter gives to source pixel ix for output pixel u; next to nothing counts as zero. */
  function RawWeight(d: Details, u: nat, output: nat, input: nat, ix: int): real
    requires output > 0 && input > 0
  {
    var add := d.filter(DownscaleFactor(output, input) * (ix as real - Center(u, output, input)));
    if Magnitude(add) <= NOTHING then 0.0 else add
  }

  function RawWeights(d: Details, u: nat, output: nat, input: nat): (ws: seq<real>)
    requires output > 0 && input > 0 && u < output && d.window >= 0.0
    ensures |ws| == RightPixel(d, u, output, input) - LeftPixel(d, u, output, input) + 1
  {
    WindowFits(d, u, output, input);
    var left := LeftPixel(d, u, output, input);
    seq(RightPixel(d, u, output, input) - left + 1, i => RawWeight(d, u, output, input, left + i))
  }

  /** A negative weight is multiplied by one factor, any other by another. */
  function ScaledWeight(w: real, negative: real, positive: real): real {
    if w < 0.0 then w * negative else w * positive
  }

  function Scaled(ws: seq<real>, negative: real, positive: real): (scaled: seq<real>)
    ensures |scaled| == |ws| && forall i :: 0 <= i < |ws| ==> scaled[i] == ScaledWeight(ws[i], negative, positive)
  {
    seq(|ws|, i requires 0 <= i < |ws| => ScaledWeight(ws[i], negative, positive))
  }

  /** The branch taken when the weights cannot be normalised or more sharpening is asked for than the filter has. */
  predicate Sharpens(ws: seq<real>, goal: real, sharpenRatio: real) {
    Total(ws) <= 0.0 || goal > sharpenRatio
  }

  /** The factor that brings the negative mass to the goal times the positive mass. */
  function SharpenFactor(goal: real, positiveMass: real, negativeMass: real): real
    requires negativeMass != 0.0
  {
    goal * positiveMass / negativeMass
  }

  /** The weights after adjustment. Without negative mass the sharpening branch has no factor to apply. */
  function Adjusted(ws: seq<real>, goal: real, sharpenRatio: real): seq<real> {
    if !Sharpens(ws, goal, sharpenRatio) then Scaled(ws, 1.0 / Total(ws), 1.0 / Total(ws))
    else if NegativeMass(ws) == 0.0 then ws
    else Scaled(ws, SharpenFactor(goal, PositiveMass(ws), NegativeMass(ws)), 1.0)
  }

  // ---------- what adjustment achieves ----------

  lemma {:induction false} ScaledParts(w: real, negative: real, positive: real)
    requires negative >= 0.0 && positive >= 0.0
    ensures NegativePart(ScaledWeight(w, negative, positive)) == negative * NegativePart(w)
    ensures PositivePart(ScaledWeight(w, negative, positive)) == positive * PositivePart(w)
  {
    if w < 0.0 { assert w * negative <= 0.0; } else { assert w * positive >= 0.0; }
  }

  lemma {:induction false} ScaledMasses(ws: seq<real>, negative: real, positive: real)
    requires negative >= 0.0 && positive >= 0.0
    ensures NegativeMass(Scaled(ws, negative, positive)) == negative * NegativeMass(ws)
    ensures PositiveMass(Scaled(ws, negative, positive)) == positive * PositiveMass(ws)
  {
    hide NegativePart, PositivePart, ScaledWeight;
    if ws != [] {
      var n, scaled := |ws| - 1, Scaled(ws, negative, positive);
      ScaledMasses(ws[..n], negative, positive);
      assert scaled[..n] == Scaled(ws[..n], negative, positive);
      ScaledParts(ws[n], negative, positive);
      Spread(negative, NegativeMass(ws[..n]), NegativePart(ws[n]));
      Spread(positive, PositiveMass(ws[..n]), PositivePart(ws[n]));
    }
  }

  /** A factor below zero turns the negative weights into positive ones. */
  lemma {:induction false} TurnedPart(w: real, negative: real)
    requires negative <= 0.0
    ensures NegativePart(ScaledWeight(w, negative, 1.0)) == 0.0
    ensures PositivePart(ScaledWeight(w, negative, 1.0)) == PositivePart(w) + -negative * NegativePart(w)
  {
    if w < 0.0 { assert w * negative == -negative * -w >= 0.0; }
  }

  lemma {:induction false} TurnedMasses(ws: seq<real>, negative: real)
    requires negative <= 0.0
    ensures NegativeMass(Scaled(ws, negative, 1.0)) == 0.0
    ensures PositiveMass(Scaled(ws, negative, 1.0)) == PositiveMass(ws) + -negative * NegativeMass(ws)
  {
    hide NegativePart, PositivePart, ScaledWeight;
    if ws != [] {
      var n, scaled := |ws| - 1, Scaled(ws, negative, 1.0);
      TurnedMasses(ws[..n], negative);
      assert scaled[..n] == Scaled(ws[..n], negative, 1.0);
      TurnedPart(ws[n], negative);
      Spread(-negative, NegativeMass(ws[..n]), NegativePart(ws[n]));
    }
  }

  lemma {:induction false} Spread(f: real, a: real, b: real)
    ensures f * (a + b) == f * a + f * b
  {}

  /** Normalised weights total one. */
  lemma {:induction false} NormalisedTotal(ws: seq<real>, goal: real, sharpenRatio: real)
    requires !Sharpens(ws, goal, sharpenRatio)
    ensures Total(Adjusted(ws, goal, sharpenRatio)) == 1.0
  {
    hide NegativeMass, PositiveMass, Total, Scaled, ScaledWeight;
    var f := 1.0 / Total(ws);
    InverseIsPositive(Total(ws));
    ScaledMasses(ws, f, f);
    TotalIsMasses(ws);
    TotalIsMasses(Scaled(ws, f, f));
    Spread(f, PositiveMass(ws), -NegativeMass(ws));
  }

  lemma {:induction false} InverseIsPositive(x: real)
    requires x > 0.0
    ensures 1.0 / x > 0.0 && (1.0 / x) * x == 1.0
  {}

  /** Sharpened weights keep their positive mass, and their negative mass is the goal times that; a goal below zero
      turns the negative weights into as much positive mass instead. */
  lemma {:induction false} SharpenedMasses(ws: seq<real>, goal: real, sharpenRatio: real)
    requires Sharpens(ws, goal, sharpenRatio) && NegativeMass(ws) > 0.0
    ensures var adjusted, mass := Adjusted(ws, goal, sharpenRatio), goal * PositiveMass(ws);
            && Total(adjusted) == PositiveMass(ws) - mass
            && (goal >= 0.0 ==> PositiveMass(adjusted) == PositiveMass(ws) && NegativeMass(adjusted) == mass)
            && (goal <= 0.0 ==> PositiveMass(adjusted) == PositiveMass(ws) - mass && NegativeMass(adjusted) == 0.0)
  {
    hide NegativeMass, PositiveMass, Total, Scaled, ScaledWeight, SharpenFactor;
    var f := SharpenFactor(goal, PositiveMass(ws), NegativeMass(ws));
    FactorReachesGoal(goal, PositiveMass(ws), NegativeMass(ws));
    TotalIsMasses(Adjusted(ws, goal, sharpenRatio));
    if goal >= 0.0 { ScaledMasses(ws, f, 1.0); }
    if goal <= 0.0 {
      TurnedMasses(ws, f);
      assert -f * NegativeMass(ws) == -(f * NegativeMass(ws));
    }
  }

  lemma {:induction false} FactorReachesGoal(goal: real, positiveMass: real, negativeMass: real)
    requires positiveMass >= 0.0 && negativeMass > 0.0
    ensures var f := SharpenFactor(goal, positiveMass, negativeMass);
            && f * negativeMass == goal * positiveMass
            && (goal >= 0.0 ==> f >= 0.0)
            && (goal <= 0.0 ==> f <= 0.0)
  {
    var target := goal * positiveMass;
    assert goal >= 0.0 ==> target >= 0.0;
    assert goal <= 0.0 ==> target <= 0.0;
    assert (target / negativeMass) * negativeMass == target;
  }

  /** Exactly when the adjusted weights total one. In the sharpening branch that is an accident of the
      positive mass and the goal: a filter without negative lobes is not normalised there at all. */
  lemma {:induction false} TotalsOne(ws: seq<real>, goal: real, sharpenRatio: real)
    ensures Total(Adjusted(ws, goal, sharpenRatio)) == 1.0 <==>
            || !Sharpens(ws, goal, sharpenRatio)
            || (NegativeMass(ws) == 0.0 && PositiveMass(ws) == 1.0)
            || (NegativeMass(ws) > 0.0 && PositiveMass(ws) - goal * PositiveMass(ws) == 1.0)
  {
    TotalIsMasses(Adjusted(ws, goal, sharpenRatio));
    if !Sharpens(ws, goal, sharpenRatio) {
      NormalisedTotal(ws, goal, sharpenRatio);
    } else if NegativeMass(ws) > 0.0 {
      SharpenedMasses(ws, goal, sharpenRatio);
    }
  }

  /** Normalising keeps the weights' proportions: each is the raw one over their total. */
  lemma {:induction false} NormalisedWeights(ws: seq<real>, goal: real, sharpenRatio: real)
    requires !Sharpens(ws, goal, sharpenRatio)
    ensures var adjusted := Adjusted(ws, goal, sharpenRatio);
            |adjusted| == |ws| && forall i :: 0 <= i < |ws| ==> adjusted[i] * Total(ws) == ws[i]
  {
    hide Total;
    var total := Total(ws);
    forall i | 0 <= i < |ws| ensures ScaledWeight(ws[i], 1.0 / total, 1.0 / total) * total == ws[i] {
      QuotientTimes(ws[i], total);
    }
  }

  lemma {:induction false} QuotientTimes(x: real, n: real)
    requires n != 0.0
    ensures x * (1.0 / n) * n == x
  {
    var q := 1.0 / n;
    assert q * n == 1.0;
    assert x * q * n == x * (q * n);
  }

  /** Sharpening keeps every weight that is not negative, and takes the others times the goal and the positive mass,
      over
      the negative mass; so those keep their proportions, too. */
  lemma {:induction false} SharpenedWeights(ws: seq<real>, goal: real, sharpenRatio: real)
    requires Sharpens(ws, goal, sharpenRatio)
    ensures var adjusted := Adjusted(ws, goal, sharpenRatio);
            && |adjusted| == |ws|
            && (forall i :: 0 <= i < |ws| && ws[i] >= 0.0 ==> adjusted[i] == ws[i])
            && (forall i :: 0 <= i < |ws| && ws[i] < 0.0 ==>
                  adjusted[i] * NegativeMass(ws) == ws[i] * (goal * PositiveMass(ws)))
            && (forall i, j :: 0 <= i < |ws| && 0 <= j < |ws| && ws[i] < 0.0 && ws[j] < 0.0 ==>
                  adjusted[i] * ws[j] == adjusted[j] * ws[i])
  {
    hide Total, PositiveMass, NegativeMass;
    if NegativeMass(ws) == 0.0 {
      NoneNegative(ws);
    } else {
      var mass := NegativeMass(ws);
      var factor := SharpenFactor(goal, PositiveMass(ws), mass);
      forall i | 0 <= i < |ws| && ws[i] < 0.0
        ensures ScaledWeight(ws[i], factor, 1.0) * mass == ws[i] * (goal * PositiveMass(ws))
      {
        FactorTimes(ws[i], goal * PositiveMass(ws), mass);
      }
    }
  }

  lemma {:induction false} FactorTimes(x: real, target: real, mass: real)
    requires mass != 0.0
    ensures x * (target / mass) * mass == x * target
  {
    var q := target / mass;
    assert q * mass == target;
    assert x * q * mass == x * (q * mass);
  }

  lemma {:induction false} NoneNegative(ws: seq<real>)
    requires NegativeMass(ws) == 0.0
    ensures forall i :: 0 <= i < |ws| ==> ws[i] >= 0.0
  {
    if ws != [] {
      var n := |ws| - 1;
      NoneNegative(ws[..n]);
      forall i | 0 <= i < |ws| ensures ws[i] >= 0.0 { assert i < n ==> ws[..n][i] == ws[i]; }
    }
  }

  // ---------- trimming ----------

  /** The weighted sum of any function of the source position. */
  ghost function Weighted(ws: seq<real>, left: int, f: int -> real): real {
    if ws == [] then 0.0 else Weighted(ws[..|ws| - 1], left, f) + ws[|ws| - 1] * f(left + |ws| - 1)
  }

  function WithoutLastZeros(ws: seq<real>): (trimmed: seq<real>)
    ensures trimmed <= ws
    ensures trimmed == [] || trimmed[|trimmed| - 1] != 0.0
    ensures forall i :: |trimmed| <= i < |ws| ==> ws[i] == 0.0
  {
    if ws == [] || ws[|ws| - 1] != 0.0 then ws else WithoutLastZeros(ws[..|ws| - 1])
  }

  function LeadingZeros(ws: seq<real>): (n: nat)
    ensures n <= |ws| && (n < |ws| ==> ws[n] != 0.0) && forall i :: 0 <= i < n ==> ws[i] == 0.0
  {
    if ws == [] || ws[0] != 0.0 then 0 else 1 + LeadingZeros(ws[1..])
  }

  /** The window with the zeros at both ends gone; a window of zeros ends before it starts. */
  function Trimmed(left: int, ws: seq<real>): Window {
    var n := LeadingZeros(ws);
    var kept := WithoutLastZeros(ws);
    if n == |ws| then Window(left + |ws|, left - 1, [])
    else
      LastNonzeroKept(ws);
      Window(left + n, left + |kept| - 1, kept[n..])
  }

  lemma {:induction false} LastNonzeroKept(ws: seq<real>)
    requires LeadingZeros(ws) < |ws|
    ensures LeadingZeros(ws) < |WithoutLastZeros(ws)|
  {}

  /** Trimmed windows have nonzero ends and lie inside the untrimmed one. */
  lemma {:induction false} TrimmedEnds(left: int, ws: seq<real>, inputs: nat)
    requires 0 <= left && left + |ws| <= inputs
    ensures var w := Trimmed(left, ws);
            && Inside(w, inputs)
            && (w.weights == [] <==> forall i :: 0 <= i < |ws| ==> ws[i] == 0.0)
            && (w.weights != [] ==> w.weights[0] != 0.0 && w.weights[|w.weights| - 1] != 0.0)
            && (w.weights != [] ==> left <= w.left && w.right <= left + |ws| - 1)
  {
    var n, kept := LeadingZeros(ws), WithoutLastZeros(ws);
    if n < |ws| {
      LastNonzeroKept(ws);
      assert kept[n..][0] == ws[n];
      assert kept[n..][|kept| - n - 1] == kept[|kept| - 1];
    }
  }

  lemma {:induction false} WeightedOfZeros(ws: seq<real>, left: int, f: int -> real)
    requires forall i :: 0 <= i < |ws| ==> ws[i] == 0.0
    ensures Weighted(ws, left, f) == 0.0
  {
    if ws != [] { WeightedOfZeros(ws[..|ws| - 1], left, f); }
  }

  lemma {:induction false} WeightedConcat(a: seq<real>, b: seq<real>, left: int, f: int -> real)
    ensures Weighted(a + b, left, f) == Weighted(a, left, f) + Weighted(b, left + |a|, f)
    decreases |b|
  {
    if b == [] {
      assert a + b == a;
    } else {
      assert (a + b)[..|a + b| - 1] == a + b[..|b| - 1];
      WeightedConcat(a, b[..|b| - 1], left, f);
    }
  }

  lemma {:induction false} TrimmedParts(ws: seq<real>)
    requires LeadingZeros(ws) < |ws|
    ensures var n, kept := LeadingZeros(ws), WithoutLastZeros(ws);
            && n < |kept| && ws == ws[..n] + kept[n..] + ws[|kept|..]
            && (forall i :: 0 <= i < n ==> ws[..n][i] == 0.0)
            && (forall i :: 0 <= i < |ws| - |kept| ==> ws[|kept|..][i] == 0.0)
  {
    LastNonzeroKept(ws);
  }

  /** Trimming changes no weighted sum, whatever is summed. */
  lemma {:induction false} TrimmedSum(left: int, ws: seq<real>, f: int -> real)
    ensures Weighted(Trimmed(left, ws).weights, Trimmed(left, ws).left, f) == Weighted(ws, left, f)
  {
    hide LeadingZeros, WithoutLastZeros, Weighted;
    var n, kept := LeadingZeros(ws), WithoutLastZeros(ws);
    if n == |ws| {
      WeightedOfZeros(ws, left, f);
      WeightedOfZeros([], left + |ws|, f);
    } else {
      TrimmedParts(ws);
      WeightedConcat(ws[..n] + kept[n..], ws[|kept|..], left, f);
      WeightedConcat(ws[..n], kept[n..], left, f);
      WeightedOfZeros(ws[..n], left, f);
      WeightedOfZeros(ws[|kept|..], left + |kept|, f);
    }
  }

  lemma {:induction false} TotalIsWeighted(ws: seq<real>, left: int)
    ensures Weighted(ws, left, i => 1.0) == Total(ws)
  {
    if ws != [] { TotalIsWeighted(ws[..|ws| - 1], left); }
  }

  lemma {:induction false} TrimmedTotal(left: int, ws: seq<real>)
    ensures Total(Trimmed(left, ws).weights) == Total(ws)
  {
    TrimmedSum(left, ws, i => 1.0);
    TotalIsWeighted(ws, left);
    TotalIsWeighted(Trimmed(left, ws).weights, Trimmed(left, ws).left);
  }
}
