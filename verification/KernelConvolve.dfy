// Convolution of a row in place: each average is taken from original pixels and
// waits in a circular buffer until the kernel has moved past its pixel.

module KernelConvolve {
  import opened Numbers
  import opened BlurSpec
  import opened BoxBlur
  import opened KernelSpec

  /** Empties a slot of the buffer. */
  method ClearSlot(buffer: array2<real>, slot: nat)
    requires slot < buffer.Length0
    modifies buffer
    ensures forall i, c :: 0 <= i < buffer.Length0 && 0 <= c < buffer.Length1 ==>
      buffer[i, c] == if i == slot then 0.0 else old(buffer[i, c])
  {
    for ch := 0 to buffer.Length1
      invariant forall i, c :: 0 <= i < buffer.Length0 && 0 <= c < buffer.Length1 ==>
        buffer[i, c] == if i == slot && c < ch then 0.0 else old(buffer[i, c])
    {
      buffer[slot, ch] := 0.0;
    }
  }

  /** Adds a weighted pixel to a slot. */
  method AddWeighted(buffer: array2<real>, slot: nat, row: array2<real>, i: nat, weight: real)
    requires slot < buffer.Length0 && i < row.Length0 && row.Length1 == buffer.Length1 && row != buffer
    modifies buffer
    ensures forall j, c :: 0 <= j < buffer.Length0 && 0 <= c < buffer.Length1 ==>
      buffer[j, c] == if j == slot then old(buffer[j, c]) + weight * row[i, c] else old(buffer[j, c])
  {
    for ch := 0 to buffer.Length1
      invariant forall j, c :: 0 <= j < buffer.Length0 && 0 <= c < buffer.Length1 ==>
        buffer[j, c] == if j == slot && c < ch then old(buffer[j, c]) + weight * row[i, c] else old(buffer[j, c])
    {
      buffer[slot, ch] := buffer[slot, ch] + weight * row[i, ch];
    }
  }

  /** Divides a slot by the weight that went into it, which may be zero. */
  method DivideSlot(buffer: array2<real>, slot: nat, weight: real, byZero: real -> real)
    requires slot < buffer.Length0
    modifies buffer
    ensures forall i, c :: 0 <= i < buffer.Length0 && 0 <= c < buffer.Length1 ==>
      buffer[i, c] == if i == slot then Quotient(old(buffer[i, c]), weight, byZero) else old(buffer[i, c])
  {
    for ch := 0 to buffer.Length1
      invariant forall i, c :: 0 <= i < buffer.Length0 && 0 <= c < buffer.Length1 ==>
        buffer[i, c] == if i == slot && c < ch then Quotient(old(buffer[i, c]), weight, byZero) else old(buffer[i, c])
    {
      buffer[slot, ch] := Quotient(buffer[slot, ch], weight, byZero);
    }
  }

  /** The slots before this one hold what they held. */
  twostate predicate KeptBelow(buffer: array2<real>, slot: nat)
    reads buffer
  {
    forall i, c :: 0 <= i < buffer.Length0 && 0 <= c < buffer.Length1 && i < slot ==> buffer[i, c] == old(buffer[i, c])
  }

  /** A slot holds the sum over the first n taps. */
  ghost predicate TapsIn(buffer: array2<real>, slot: nat, kern: seq<real>, s: Row, left: int, n: nat, first: nat)
    requires slot < buffer.Length0 && n <= |kern| && BlurSpec.Shaped(s, buffer.Length1)
    reads buffer
  {
    forall c :: 0 <= c < buffer.Length1 ==> buffer[slot, c] == TapSum(kern, s, left, n, first, c)
  }

  /** One more tap. */
  method AddTap(kern: seq<real>, row: array2<real>, left: int, n: nat, first: nat, buffer: array2<real>, slot: nat,
                ghost s: Row, ghost t: Row, ghost flushed: int)
    requires row != buffer && row.Length1 == buffer.Length1 && slot < buffer.Length0 && n < |kern|
    requires |s| == |t| == row.Length0 && BlurSpec.Shaped(s, row.Length1) && BlurSpec.Shaped(t, row.Length1)
    requires Written(row, s, t, flushed) && flushed <= left && first <= left + n < row.Length0
    requires TapsIn(buffer, slot, kern, s, left, n, first)
    modifies buffer
    ensures TapsIn(buffer, slot, kern, s, left, n + 1, first) && KeptBelow(buffer, slot)
  {
    AddWeighted(buffer, slot, row, left + n, kern[n]);
  }

  lemma {:induction false} TapOutside(buffer: array2<real>, slot: nat, kern: seq<real>, s: Row, left: int, n: nat,
                                      first: nat)
    requires slot < buffer.Length0 && n < |kern| && BlurSpec.Shaped(s, buffer.Length1) && !(first <= left + n < |s|)
    requires TapsIn(buffer, slot, kern, s, left, n, first)
    ensures TapsIn(buffer, slot, kern, s, left, n + 1, first)
  {}

  lemma {:induction false} NextWeight(kern: seq<real>, size: nat, left: int, n: nat, first: nat)
    requires n < |kern|
    ensures TapWeight(kern, size, left, 0, first) == 0.0
    ensures TapWeight(kern, size, left, n + 1, first) ==
      TapWeight(kern, size, left, n, first) + if first <= left + n < size then kern[n] else 0.0
  {}

  lemma {:induction false} NoTaps(buffer: array2<real>, slot: nat, kern: seq<real>, s: Row, left: int, first: nat)
    requires slot < buffer.Length0 && BlurSpec.Shaped(s, buffer.Length1)
    requires forall c :: 0 <= c < buffer.Length1 ==> buffer[slot, c] == 0.0
    ensures TapsIn(buffer, slot, kern, s, left, 0, first)
  {}

  /** Averages the original pixels around ndx in the slot behind the ring. */
  method AverageAround(kern: seq<real>, row: array2<real>, radius: nat, ndx: nat, buffer: array2<real>,
                       byZero: real -> real, ghost s: Row, ghost t: Row)
    requires row != buffer && row.Length1 == buffer.Length1 && buffer.Length0 == radius + 2 && ndx < row.Length0
    requires |kern| == 2 * radius + 1
    requires |s| == |t| == row.Length0 && BlurSpec.Shaped(s, row.Length1) && BlurSpec.Shaped(t, row.Length1)
    requires Written(row, s, t, ndx - radius)
    modifies buffer
    ensures SlotHolds(buffer, radius + 1, AveragePixel(kern, s, radius, row.Length1, ndx, byZero))
    ensures KeptBelow(buffer, radius + 1)
  {
    hide TapSum, TapWeight, Written;
    var slot, left: int, right, w := radius + 1, ndx - radius, ndx + radius, row.Length0;
    ClearSlot(buffer, slot);
    if left < 0 || right >= w {
      NoTaps(buffer, slot, kern, s, left, 1);
      NextWeight(kern, w, left, 0, 1);
      var totalWeight := 0.0;
      for i := left to right + 1
        invariant totalWeight == TapWeight(kern, w, left, i - left, 1)
        invariant TapsIn(buffer, slot, kern, s, left, i - left, 1) && KeptBelow(buffer, slot)
      {
        NextWeight(kern, w, left, i - left, 1);
        if i > 0 && i < w {
          totalWeight := totalWeight + kern[i - left];
          AddTap(kern, row, left, i - left, 1, buffer, slot, s, t, ndx - radius);
        } else {
          TapOutside(buffer, slot, kern, s, left, i - left, 1);
        }
      }
      assert Border(w, radius, ndx);
      DivideSlot(buffer, slot, totalWeight, byZero);
    } else {
      NoTaps(buffer, slot, kern, s, left, 0);
      for i := left to right + 1
        invariant TapsIn(buffer, slot, kern, s, left, i - left, 0) && KeptBelow(buffer, slot)
      {
        AddTap(kern, row, left, i - left, 0, buffer, slot, s, t, ndx - radius);
      }
    }
  }

  /** Copies one slot over another. */
  method CopySlot(buffer: array2<real>, slot: nat, from: nat)
    requires slot < buffer.Length0 && from < buffer.Length0
    modifies buffer
    ensures forall i, c :: 0 <= i < buffer.Length0 && 0 <= c < buffer.Length1 ==>
      buffer[i, c] == if i == slot then old(buffer[from, c]) else old(buffer[i, c])
  {
    for ch := 0 to buffer.Length1
      invariant forall i, c :: 0 <= i < buffer.Length0 && 0 <= c < buffer.Length1 ==>
        buffer[i, c] == if i == slot && c < ch then old(buffer[from, c]) else old(buffer[i, c])
    {
      buffer[slot, ch] := buffer[from, ch];
    }
  }

  /** Copies a pixel into a slot. */
  method CopyPixel(buffer: array2<real>, slot: nat, row: array2<real>, i: nat)
    requires slot < buffer.Length0 && i < row.Length0 && row.Length1 == buffer.Length1 && row != buffer
    modifies buffer
    ensures forall j, c :: 0 <= j < buffer.Length0 && 0 <= c < buffer.Length1 ==>
      buffer[j, c] == if j == slot then row[i, c] else old(buffer[j, c])
  {
    for ch := 0 to buffer.Length1
      invariant forall j, c :: 0 <= j < buffer.Length0 && 0 <= c < buffer.Length1 ==>
        buffer[j, c] == if j == slot && c < ch then row[i, c] else old(buffer[j, c])
    {
      buffer[slot, ch] := row[i, ch];
    }
  }

  /** How far the average is from the pixel. */
  method MeasureChange(row: array2<real>, ndx: nat, buffer: array2<real>, slot: nat, ghost p: seq<real>,
                       ghost q: seq<real>)
    returns (change: real)
    requires ndx < row.Length0 && slot < buffer.Length0 && row.Length1 == buffer.Length1 == |p| == |q|
    requires SlotHolds(row, ndx, p) && SlotHolds(buffer, slot, q)
    ensures change == Change(p, q, |p|)
  {
    change := 0.0;
    for j := 0 to row.Length1
      invariant change == Change(p, q, j)
    {
      change := change + Magnitude(row[ndx, j] - buffer[slot, j]);
    }
  }

  /** Delays the average of the pixel at ndx, or the pixel itself where the change is outside the thresholds. */
  method DelayChosen(row: array2<real>, radius: nat, ndx: nat, circ: nat, buffer: array2<real>, min: real, max: real,
                     ghost p: seq<real>, ghost average: seq<real>)
    requires row != buffer && row.Length1 == buffer.Length1 == |p| == |average| && buffer.Length0 == radius + 2
    requires ndx < row.Length0 && circ < radius + 1
    requires SlotHolds(row, ndx, p) && SlotHolds(buffer, radius + 1, average)
    modifies buffer
    ensures SlotHolds(buffer, circ, Chosen(p, average, min, max))
    ensures forall i, c :: 0 <= i < radius + 1 && 0 <= c < buffer.Length1 && i != circ ==>
      buffer[i, c] == old(buffer[i, c])
  {
    CopySlot(buffer, circ, radius + 1);
    if min > 0.0 || max > 0.0 {
      var change := MeasureChange(row, ndx, buffer, radius + 1, p, average);
      if change < min || change > max {
        CopyPixel(buffer, circ, row, ndx);
      }
    }
  }

  /** The convolved pixel of the window around ndx joins the ring. */
  method DelayConvolved(kern: seq<real>, row: array2<real>, radius: nat, ndx: nat, circ: nat, buffer: array2<real>,
                        min: real, max: real, byZero: real -> real, ghost s: Row)
    requires row != buffer && row.Length1 == buffer.Length1 && buffer.Length0 == radius + 2
    requires ndx < row.Length0 && circ < radius + 1
    requires |kern| == 2 * radius + 1
    requires |s| == row.Length0 && BlurSpec.Shaped(s, row.Length1)
    requires var t := Convolved(kern, s, radius, row.Length1, min, max, byZero);
             Written(row, s, t, ndx - radius) && Delayed(buffer, t, ndx, circ, radius + 1)
    modifies buffer
    ensures Delayed(buffer, Convolved(kern, s, radius, row.Length1, min, max, byZero), ndx + 1,
                    NextSlot(circ, radius + 1), radius + 1)
  {
    hide TapSum, TapWeight, Average, Chosen, NextSlot;
    ghost var t := Convolved(kern, s, radius, row.Length1, min, max, byZero);
    AverageAround(kern, row, radius, ndx, buffer, byZero, s, t);
    DelayChosen(row, radius, ndx, circ, buffer, min, max, s[ndx],
                AveragePixel(kern, s, radius, row.Length1, ndx, byZero));
    var slots: nat := radius + 1;
    forall k: nat | 1 <= k <= slots && 0 <= ndx + 1 - k < |t|
      ensures SlotHolds(buffer, Back(NextSlot(circ, slots), k, slots), t[ndx + 1 - k])
    {
      RingStep(circ, slots, k);
      if k > 1 {
        RingStep(circ, slots, k - 1);
        assert old(SlotHolds(buffer, Back(circ, k - 1, slots), t[ndx - (k - 1)]));
      }
    }
  }

  /** Convolves a row in place, unless it is less than half as wide as the kernel. */
  method ConvolveRow(kern: seq<real>, row: array2<real>, radius: nat, buffer: array2<real>, min: real, max: real,
                     byZero: real -> real)
    requires row != buffer && row.Length1 == buffer.Length1 && buffer.Length0 == radius + 2 && |kern| == 2 * radius + 1
    modifies row, buffer
    ensures Pixels(row) == if row.Length0 < radius + 1 then old(Pixels(row))
                           else Convolved(kern, old(Pixels(row)), radius, row.Length1, min, max, byZero)
  {
    hide *;
    if row.Length0 < radius + 1 { return; }
    ghost var s := Pixels(row);
    ghost var t := Convolved(kern, s, radius, row.Length1, min, max, byZero);
    var w, slots: nat := row.Length0, radius + 1;
    var circ: nat := 0;
    NoneWritten(row, buffer, t, slots, 0 - slots);
    for ndx: nat := 0 to w + slots
      invariant circ < slots && Written(row, s, t, ndx - slots) && Delayed(buffer, t, ndx, circ, slots)
    {
      if ndx >= slots {
        OldestDelayed(buffer, t, ndx, circ, slots);
        FlushSlot(row, s, t, ndx - slots, buffer, circ);
      } else {
        FlushedBelow(row, s, t, ndx - slots, ndx - slots + 1);
      }
      if ndx < w {
        DelayConvolved(kern, row, radius, ndx, circ, buffer, min, max, byZero, s);
      } else {
        DelayNothing(buffer, t, ndx, circ, slots);
      }
      circ := NextSlot(circ, slots);
    }
    AllWritten(row, s, t);
  }
}
