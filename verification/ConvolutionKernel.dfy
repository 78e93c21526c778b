// Making a convolution kernel: a bell around its centre, normalised to a total
// of one, or turned into a sharpening kernel first.

module ConvolutionKernel {
  import opened KernelSpec

  /** The same from either end. */
  ghost predicate Symmetric(kern: seq<real>) {
    forall i :: 0 <= i < |kern| ==> kern[i] == kern[|kern| - 1 - i]
  }

  function Scaled(kern: seq<real>, factor: real): (r: seq<real>)
    ensures |r| == |kern| && forall i :: 0 <= i < |kern| ==> r[i] == kern[i] * factor
  {
    seq(|kern|, i requires 0 <= i < |kern| => kern[i] * factor)
  }

  /** Scaled to this total; a kernel of total zero stays as it is. */
  function Normalized(kern: seq<real>, desired: real): (r: seq<real>)
    ensures |r| == |kern|
  {
    var sum := Total(kern, |kern|);
    if sum == 0.0 then kern else Scaled(kern, desired / sum)
  }

  lemma {:induction false} ScaledTotal(kern: seq<real>, factor: real, n: nat)
    requires n <= |kern|
    ensures Total(Scaled(kern, factor), n) == Total(kern, n) * factor
  {
    if n > 0 { ScaledTotal(kern, factor, n - 1); }
  }

  lemma {:induction false} NormalizedSymmetric(kern: seq<real>, desired: real)
    requires Symmetric(kern)
    ensures Symmetric(Normalized(kern, desired))
  {}

  lemma {:induction false} NormalizedTotal(kern: seq<real>, desired: real)
    requires Total(kern, |kern|) != 0.0
    ensures Total(Normalized(kern, desired), |kern|) == desired
  {
    var sum := Total(kern, |kern|);
    ScaledTotal(kern, desired / sum, |kern|);
    assert sum * (desired / sum) == desired;
  }

  /** Every tap turned negative, the centre raised by twice the total. */
  function Sharpened(kern: seq<real>, radius: nat): (r: seq<real>)
    requires radius < |kern|
    ensures |r| == |kern|
  {
    seq(|kern|, i requires 0 <= i < |kern| => if i == radius then 2.0 * Total(kern, |kern|) - kern[i] else -kern[i])
  }

  lemma {:induction false} SharpenedUpTo(kern: seq<real>, radius: nat, n: nat)
    requires radius < |kern| && n <= |kern|
    ensures Total(Sharpened(kern, radius), n) ==
      (if n > radius then 2.0 * Total(kern, |kern|) else 0.0) - Total(kern, n)
  {
    if n > 0 { SharpenedUpTo(kern, radius, n - 1); }
  }

  /** Sharpening keeps the kernel's total and its symmetry. */
  lemma {:induction false} SharpenedTotal(kern: seq<real>, radius: nat)
    requires |kern| == 2 * radius + 1
    ensures Total(Sharpened(kern, radius), |kern|) == Total(kern, |kern|)
    ensures Symmetric(kern) ==> Symmetric(Sharpened(kern, radius))
  {
    SharpenedUpTo(kern, radius, |kern|);
  }

  lemma {:induction false} OfTotal(tap: real, total: real)
    requires total != 0.0
    ensures tap * (1.0 / total) * total == tap
  {}

  /** Normalised to one, taps are their shares of the total. */
  lemma {:induction false} NormalizedTaps(kern: seq<real>)
    ensures var total := Total(kern, |kern|);
            forall i: nat :: i < |kern| ==>
              if total != 0.0 then Normalized(kern, 1.0)[i] * total == kern[i] else Normalized(kern, 1.0)[i] == kern[i]
  {
    var total := Total(kern, |kern|);
    if total != 0.0 {
      forall i: nat | i < |kern| ensures Normalized(kern, 1.0)[i] * total == kern[i] { OfTotal(kern[i], total); }
    }
  }

  /** Sharpened taps are the negative of that, with two more in the centre. */
  lemma {:induction false} SharpenedTaps(kern: seq<real>, radius: nat)
    requires |kern| == 2 * radius + 1
    ensures var total := Total(kern, |kern|); var sharp := Normalized(Sharpened(kern, radius), 1.0);
            forall i: nat :: i < |kern| ==>
              if total != 0.0 then ((if i == radius then 2.0 else 0.0) - sharp[i]) * total == kern[i]
              else sharp[i] == -kern[i]
  {
    hide Normalized, Total;
    var total, sharp := Total(kern, |kern|), Sharpened(kern, radius);
    SharpenedTotal(kern, radius);
    NormalizedTaps(sharp);
    forall i: nat | i < |kern| && total != 0.0
      ensures ((if i == radius then 2.0 else 0.0) - Normalized(sharp, 1.0)[i]) * total == kern[i]
    {
      var tap := Normalized(sharp, 1.0)[i];
      assert tap * total == sharp[i];
      assert (2.0 - tap) * total == 2.0 * total - tap * total && (0.0 - tap) * total == -(tap * total);
    }
  }

  function Distance(a: nat, b: nat): nat {
    if a <= b then b - a else a - b
  }

  /** The kernel whose taps depend on their distance from the centre alone. */
  function Bell(radius: nat, gaussian: nat -> real): (kern: seq<real>)
    ensures |kern| == 2 * radius + 1
  {
    seq(2 * radius + 1, i requires 0 <= i < 2 * radius + 1 => gaussian(Distance(radius, i)))
  }

  lemma {:induction false} BellSymmetric(radius: nat, gaussian: nat -> real)
    ensures Symmetric(Bell(radius, gaussian))
  {
    var kern := Bell(radius, gaussian);
    forall i | 0 <= i < |kern| ensures kern[i] == kern[|kern| - 1 - i] {
      assert Distance(radius, i) == Distance(radius, |kern| - 1 - i);
    }
  }

  /** With positive taps and a radius of one or more no border weight vanishes, in any row the blur accepts. */
  lemma {:induction false} PositiveDivides(kern: seq<real>, size: nat, radius: nat)
    requires |kern| == 2 * radius + 1 && size >= radius + 1
    requires forall i :: 0 <= i < |kern| ==> kern[i] > 0.0
    ensures Divisible(kern, size, radius)
  {
    forall i: nat | i < size && Border(size, radius, i)
      ensures TapWeight(kern, size, i - radius, |kern|, 1) != 0.0
    {
      SomeTap(kern, size, i - radius, |kern|, if i == 0 then radius + 1 else radius);
    }
  }

  lemma {:induction false} SomeTap(kern: seq<real>, size: nat, left: int, n: nat, tap: nat)
    requires n <= |kern| && forall i :: 0 <= i < |kern| ==> kern[i] > 0.0
    requires 1 <= left + tap < size
    ensures TapWeight(kern, size, left, n, 1) >= 0.0 && (tap < n ==> TapWeight(kern, size, left, n, 1) > 0.0)
  {
    if n > 0 { SomeTap(kern, size, left, n - 1, tap); }
  }

  method SumTaps(kern: array<real>) returns (sum: real)
    ensures sum == Total(kern[..], kern.Length)
  {
    sum := 0.0;
    for i := 0 to kern.Length
      invariant sum == Total(kern[..], i)
    {
      sum := sum + kern[i];
    }
  }

  method Normalize(kern: array<real>, desired: real)
    modifies kern
    ensures kern[..] == Normalized(old(kern[..]), desired)
  {
    var sum := SumTaps(kern);
    if sum == 0.0 { return; }
    var factor := desired / sum;
    ghost var was := kern[..];
    for i := 0 to kern.Length
      invariant forall j :: 0 <= j < kern.Length ==> kern[j] == if j < i then Scaled(was, factor)[j] else was[j]
    {
      kern[i] := kern[i] * factor;
    }
    assert kern[..] == Scaled(was, factor);
  }

  method Sharpen(kern: array<real>, radius: nat)
    requires kern.Length == 2 * radius + 1
    modifies kern
    ensures kern[..] == Normalized(Sharpened(old(kern[..]), radius), 1.0)
  {
    var sum := SumTaps(kern);
    for i := 0 to kern.Length
      invariant forall j :: 0 <= j < kern.Length ==>
        kern[j] == if j < i then Sharpened(old(kern[..]), radius)[j] else old(kern[j])
    {
      if i == radius {
        kern[i] := 2.0 * sum - kern[i];
      } else {
        kern[i] := kern[i] * -1.0;
      }
    }
    assert kern[..] == Sharpened(old(kern[..]), radius);
    Normalize(kern, 1.0);
  }

  method CreateBell(radius: nat, gaussian: nat -> real) returns (kern: array<real>)
    ensures fresh(kern) && kern[..] == Bell(radius, gaussian)
  {
    kern := new real[radius * 2 + 1](i => 0.0);
    for i := 0 to kern.Length
      invariant forall j :: 0 <= j < i ==> kern[j] == Bell(radius, gaussian)[j]
    {
      kern[i] := gaussian(Distance(radius, i));
    }
  }

  /** A sharpening kernel of total one, unless the bell it starts from has total zero: the negative of the normalised
      bell, and two more in the centre. */
  method CreateSharpen(radius: nat, gaussian: nat -> real) returns (kern: array<real>)
    ensures fresh(kern) && kern.Length == 2 * radius + 1 && Symmetric(kern[..])
    ensures Total(Bell(radius, gaussian), kern.Length) != 0.0 ==> Total(kern[..], kern.Length) == 1.0
    ensures var bell := Bell(radius, gaussian); var total := Total(bell, |bell|);
            forall i: nat :: i < kern.Length ==>
              if total != 0.0 then ((if i == radius then 2.0 else 0.0) - kern[i]) * total == bell[i]
              else kern[i] == -bell[i]
  {
    hide *;
    kern := CreateBell(radius, gaussian);
    ghost var bell := kern[..];
    Sharpen(kern, radius);
    BellSymmetric(radius, gaussian);
    SharpenedTotal(bell, radius);
    NormalizedSymmetric(Sharpened(bell, radius), 1.0);
    SharpenedTaps(bell, radius);
    if Total(bell, |bell|) != 0.0 { NormalizedTotal(Sharpened(bell, radius), 1.0); }
  }

  /** A blurring kernel of total one in the proportions of the bell, unless the bell has total zero. */
  method CreateNormalized(radius: nat, gaussian: nat -> real) returns (kern: array<real>)
    ensures fresh(kern) && kern.Length == 2 * radius + 1 && Symmetric(kern[..])
    ensures Total(Bell(radius, gaussian), kern.Length) != 0.0 ==> Total(kern[..], kern.Length) == 1.0
    ensures var bell := Bell(radius, gaussian); var total := Total(bell, |bell|);
            forall i: nat :: i < kern.Length ==>
              if total != 0.0 then kern[i] * total == bell[i] else kern[i] == bell[i]
  {
    hide *;
    kern := CreateBell(radius, gaussian);
    ghost var bell := kern[..];
    Normalize(kern, 1.0);
    BellSymmetric(radius, gaussian);
    NormalizedSymmetric(bell, 1.0);
    NormalizedTaps(bell);
    if Total(bell, |bell|) != 0.0 { NormalizedTotal(bell, 1.0); }
  }
}
