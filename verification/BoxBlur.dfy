// The in-place sliding-window blurs: a running sum over the original pixels
// and a circular buffer that delays writing until a pixel is no longer read.

module BoxBlur {
  import opened BlurSpec
  import Memory

  /** The pixels in the array. */
  ghost function Pixels(row: array2<real>): (s: Row)
    reads row
    ensures |s| == row.Length0 && BlurSpec.Shaped(s, row.Length1)
    ensures forall i, c :: 0 <= i < row.Length0 && 0 <= c < row.Length1 ==> s[i][c] == row[i, c]
  {
    seq(row.Length0, i requires 0 <= i < row.Length0 reads row =>
      seq(row.Length1, c requires 0 <= c < row.Length1 reads row => row[i, c]))
  }

  /** The slot used k steps before the one at circ, in a ring of this many slots. */
  function Back(circ: nat, k: nat, slots: nat): (slot: nat)
    requires circ < slots && 1 <= k <= slots
    ensures slot < slots
  {
    if circ >= k then circ - k else circ - k + slots
  }

  /** Adds a pixel to the running sum of each channel. */
  method AddPixel(sum: array<real>, row: array2<real>, i: nat, factor: real)
    requires i < row.Length0 && row.Length1 <= sum.Length
    modifies sum
    ensures forall c :: 0 <= c < sum.Length ==>
      sum[c] == if c < row.Length1 then old(sum[c]) + row[i, c] * factor else old(sum[c])
  {
    for ch := 0 to row.Length1
      invariant forall c :: 0 <= c < sum.Length ==>
        sum[c] == if c < ch then old(sum[c]) + row[i, c] * factor else old(sum[c])
    {
      sum[ch] := sum[ch] + row[i, ch] * factor;
    }
  }

  /** Puts the sum times this factor, the reciprocal of the window's size, into a slot of the buffer. */
  method Enqueue(buffer: array2<real>, slot: nat, sum: array<real>, factor: real)
    requires slot < buffer.Length0 && buffer.Length1 <= sum.Length
    modifies buffer
    ensures forall i, c :: 0 <= i < buffer.Length0 && 0 <= c < buffer.Length1 ==>
      buffer[i, c] == if i == slot then sum[c] * factor else old(buffer[i, c])
  {
    for ch := 0 to buffer.Length1
      invariant forall i, c :: 0 <= i < buffer.Length0 && 0 <= c < buffer.Length1 ==>
        buffer[i, c] == if i == slot && c < ch then sum[c] * factor else old(buffer[i, c])
    {
      buffer[slot, ch] := sum[ch] * factor;
    }
  }

  /** Writes a slot of the buffer over a pixel. */
  method Flush(row: array2<real>, i: nat, buffer: array2<real>, slot: nat)
    requires i < row.Length0 && slot < buffer.Length0 && row.Length1 == buffer.Length1 && row != buffer
    modifies row
    ensures forall j, c :: 0 <= j < row.Length0 && 0 <= c < row.Length1 ==>
      row[j, c] == if j == i then buffer[slot, c] else old(row[j, c])
  {
    for ch := 0 to row.Length1
      invariant forall j, c :: 0 <= j < row.Length0 && 0 <= c < row.Length1 ==>
        row[j, c] == if j == i && c < ch then buffer[slot, c] else old(row[j, c])
    {
      row[i, ch] := buffer[slot, ch];
    }
  }

  // ---------- delayed writing ----------

  /** Pixels before flushed hold the blurred values, the rest the original ones. */
  ghost predicate Written(row: array2<real>, s: Row, t: Row, flushed: int)
    requires |s| == |t| == row.Length0 && BlurSpec.Shaped(s, row.Length1) && BlurSpec.Shaped(t, row.Length1)
    reads row
  {
    forall j, c :: 0 <= j < row.Length0 && 0 <= c < row.Length1 ==>
      row[j, c] == if j < flushed then t[j][c] else s[j][c]
  }

  ghost predicate SlotHolds(buffer: array2<real>, slot: nat, pixel: seq<real>)
    requires slot < buffer.Length0 && |pixel| == buffer.Length1
    reads buffer
  {
    forall c :: 0 <= c < buffer.Length1 ==> buffer[slot, c] == pixel[c]
  }

  /** The ring holds the blurred pixels before ndx, as many as there are slots. */
  ghost predicate Delayed(buffer: array2<real>, t: Row, ndx: nat, circ: nat, slots: nat)
    requires circ < slots <= buffer.Length0 && BlurSpec.Shaped(t, buffer.Length1)
    reads buffer
  {
    forall k: nat :: 1 <= k <= slots && 0 <= ndx - k < |t| ==> SlotHolds(buffer, Back(circ, k, slots), t[ndx - k])
  }

  function NextSlot(circ: nat, slots: nat): (next: nat)
    requires circ < slots
    ensures next < slots
  {
    (circ + 1) % slots
  }

  lemma {:induction false} NextSlotIs(circ: nat, slots: nat)
    requires circ < slots
    ensures NextSlot(circ, slots) == if circ + 1 == slots then 0 else circ + 1
  {}

  /** One step of the ring: the slot just left is one step back, the others one further. */
  lemma {:induction false} RingStep(circ: nat, slots: nat, k: nat)
    requires circ < slots && 1 <= k <= slots
    ensures Back(NextSlot(circ, slots), k, slots) == if k == 1 then circ else Back(circ, k - 1, slots)
    ensures Back(circ, slots, slots) == circ && (k < slots ==> Back(circ, k, slots) != circ)
  {
    NextSlotIs(circ, slots);
  }

  /** Writes a slot over the next pixel due. */
  method FlushSlot(row: array2<real>, ghost s: Row, ghost t: Row, flushed: nat, buffer: array2<real>, slot: nat)
    requires |s| == |t| == row.Length0 && BlurSpec.Shaped(s, row.Length1) && BlurSpec.Shaped(t, row.Length1)
    requires row != buffer && row.Length1 == buffer.Length1 && slot < buffer.Length0 && flushed < row.Length0
    requires Written(row, s, t, flushed) && SlotHolds(buffer, slot, t[flushed])
    modifies row
    ensures Written(row, s, t, flushed + 1)
  {
    Flush(row, flushed, buffer, slot);
  }

  /** Delays the mean of the pixel at ndx; the other slots keep what they hold. */
  method Delay(buffer: array2<real>, ghost t: Row, ndx: nat, circ: nat, slots: nat, sum: array<real>, factor: real)
    requires circ < slots <= buffer.Length0 && BlurSpec.Shaped(t, buffer.Length1) && ndx < |t|
    requires buffer.Length1 <= sum.Length
    requires forall c :: 0 <= c < buffer.Length1 ==> sum[c] * factor == t[ndx][c]
    requires Delayed(buffer, t, ndx, circ, slots)
    modifies buffer
    ensures Delayed(buffer, t, ndx + 1, NextSlot(circ, slots), slots)
    ensures forall spare: nat, content: seq<real> ::
      spare < buffer.Length0 && spare != circ && |content| == buffer.Length1 ==>
        old(SlotHolds(buffer, spare, content)) ==> SlotHolds(buffer, spare, content)
  {
    Enqueue(buffer, circ, sum, factor);
    forall k: nat | 1 <= k <= slots && 0 <= ndx + 1 - k < |t|
      ensures SlotHolds(buffer, Back(NextSlot(circ, slots), k, slots), t[ndx + 1 - k])
    {
      RingStep(circ, slots, k);
      if k > 1 {
        RingStep(circ, slots, k - 1);
        assert old(SlotHolds(buffer, Back(circ, k - 1, slots), t[ndx - (k - 1)]));
      }
    }
  }

  /** Past the end of the row the ring only turns. */
  lemma {:induction false} DelayNothing(buffer: array2<real>, t: Row, ndx: nat, circ: nat, slots: nat)
    requires circ < slots <= buffer.Length0 && BlurSpec.Shaped(t, buffer.Length1) && ndx >= |t|
    requires Delayed(buffer, t, ndx, circ, slots)
    ensures Delayed(buffer, t, ndx + 1, NextSlot(circ, slots), slots)
  {
    forall k: nat | 1 <= k <= slots && 0 <= ndx + 1 - k < |t|
      ensures SlotHolds(buffer, Back(NextSlot(circ, slots), k, slots), t[ndx + 1 - k])
    {
      RingStep(circ, slots, k);
      assert SlotHolds(buffer, Back(circ, k - 1, slots), t[ndx - (k - 1)]);
    }
  }

  /** A full ring is about to reuse the slot of the pixel as many steps back as it has slots. */
  lemma {:induction false} OldestDelayed(buffer: array2<real>, t: Row, ndx: nat, circ: nat, slots: nat)
    requires circ < slots <= buffer.Length0 && BlurSpec.Shaped(t, buffer.Length1) && 0 <= ndx - slots < |t|
    requires Delayed(buffer, t, ndx, circ, slots)
    ensures SlotHolds(buffer, circ, t[ndx - slots])
  {
    RingStep(circ, slots, slots);
    assert SlotHolds(buffer, Back(circ, slots, slots), t[ndx - slots]);
  }

  lemma {:induction false} AllWritten(row: array2<real>, s: Row, t: Row)
    requires |s| == |t| == row.Length0 && BlurSpec.Shaped(s, row.Length1) && BlurSpec.Shaped(t, row.Length1)
    requires Written(row, s, t, row.Length0)
    ensures Pixels(row) == t
  {
    forall i | 0 <= i < row.Length0 ensures Pixels(row)[i] == t[i] {}
  }

  lemma {:induction false} NoneWritten(row: array2<real>, buffer: array2<real>, t: Row, slots: nat, flushed: int)
    requires |t| == row.Length0 && BlurSpec.Shaped(t, row.Length1) && row.Length1 == buffer.Length1
    requires 0 < slots <= buffer.Length0 && flushed <= 0
    ensures Written(row, Pixels(row), t, flushed) && Delayed(buffer, t, 0, 0, slots)
  {}

  lemma {:induction false} FlushedBelow(row: array2<real>, s: Row, t: Row, flushed: int, upTo: int)
    requires |s| == |t| == row.Length0 && BlurSpec.Shaped(s, row.Length1) && BlurSpec.Shaped(t, row.Length1)
    requires Written(row, s, t, flushed) && flushed <= upTo <= 0
    ensures Written(row, s, t, upTo)
  {}

  // ---------- running sums ----------

  /** The sums with a pixel taken in, or with a negative factor out. */
  function SumPlus(sum: seq<real>, pixel: seq<real>, factor: real): (next: seq<real>)
    requires |pixel| <= |sum|
    ensures |next| == |sum| && forall c :: 0 <= c < |pixel| ==> next[c] == sum[c] + pixel[c] * factor
  {
    seq(|sum|, c requires 0 <= c < |sum| => if c < |pixel| then sum[c] + pixel[c] * factor else sum[c])
  }

  ghost predicate SumsAre(sum: seq<real>, s: Row, channels: nat, from: int, until: int)
    requires from <= until && channels <= |sum| && BlurSpec.Shaped(s, channels)
  {
    forall c :: 0 <= c < channels ==> sum[c] == Clipped(s, from, until, c)
  }

  /** Takes a pixel not yet written over into the running sum. */
  method TakePixel(sum: array<real>, row: array2<real>, ghost s: Row, ghost t: Row, ghost flushed: int, i: nat,
                   factor: real)
    requires |s| == |t| == row.Length0 && BlurSpec.Shaped(s, row.Length1) && BlurSpec.Shaped(t, row.Length1)
    requires row.Length1 <= sum.Length && i < row.Length0 && flushed <= i
    requires Written(row, s, t, flushed)
    modifies sum
    ensures sum[..] == SumPlus(old(sum[..]), s[i], factor)
  {
    AddPixel(sum, row, i, factor);
  }

  /** The sum over the first pixels. */
  method SumFirst(sum: array<real>, row: array2<real>, radius: nat)
    requires radius <= row.Length0 && row.Length1 <= sum.Length && forall c :: 0 <= c < sum.Length ==> sum[c] == 0.0
    modifies sum
    ensures SumsAre(sum[..], Pixels(row), row.Length1, -1 - radius, radius)
  {
    for ndx := 0 to radius
      invariant forall c :: 0 <= c < row.Length1 ==> sum[c] == Sum(Pixels(row), 0, ndx, c)
    {
      AddPixel(sum, row, ndx, 1.0);
    }
  }

  // ---------- the box blur ----------

  /** The running sum moved one pixel to the right. */
  function Slid(sum: seq<real>, s: Row, channels: nat, from: int, until: int): (next: seq<real>)
    requires channels <= |sum| && BlurSpec.Shaped(s, channels)
    ensures |next| == |sum|
  {
    var dropped := if 0 <= from < |s| then SumPlus(sum, s[from], -1.0) else sum;
    if 0 <= until < |s| then SumPlus(dropped, s[until], 1.0) else dropped
  }

  lemma {:induction false} SlideSums(sum: seq<real>, s: Row, channels: nat, from: int, until: int)
    requires channels <= |sum| && BlurSpec.Shaped(s, channels) && from < until && from <= |s| && 0 <= until
    requires SumsAre(sum, s, channels, from, until)
    ensures SumsAre(Slid(sum, s, channels, from, until), s, channels, from + 1, until + 1)
  {
    var next := Slid(sum, s, channels, from, until);
    forall c | 0 <= c < channels ensures next[c] == Clipped(s, from + 1, until + 1, c) {
      SlideClipped(s, from, until, c);
    }
  }

  lemma {:induction false} BoxMeans(sum: seq<real>, s: Row, radius: nat, channels: nat, ndx: nat, count: nat,
                                    factor: real)
    requires |sum| >= channels && BlurSpec.Shaped(s, channels) && ndx < |s|
    requires SumsAre(sum, s, channels, ndx - radius, ndx + radius + 1)
    requires count == ClippedSize(s, ndx - radius, ndx + radius + 1) > 0 && factor == Reciprocal(count)
    ensures forall c :: 0 <= c < channels ==> sum[c] * factor == BoxBlurred(s, radius, channels)[ndx][c]
  {
    forall c | 0 <= c < channels ensures sum[c] * factor == BoxMean(s, radius, ndx, c) {
      ByReciprocal(sum[c], count as real);
    }
  }

  function Reciprocal(n: nat): real
    requires n > 0
  {
    1.0 / n as real
  }

  lemma {:induction false} ByReciprocal(x: real, n: real)
    requires n != 0.0
    ensures x * (1.0 / n) == x / n
  {
    var q := x / n;
    assert x == q * n;
    assert n * (1.0 / n) == 1.0;
  }

  lemma {:induction false} CountSlides(s: Row, ndx: nat, radius: nat)
    requires radius <= |s| && ndx <= |s| + radius
    ensures ClippedSize(s, ndx - radius, ndx + radius + 1) == ClippedSize(s, ndx - 1 - radius, ndx + radius)
              - (if ndx >= radius + 1 then 1 else 0) + (if ndx < |s| - radius then 1 else 0)
    ensures ndx < |s| ==> ClippedSize(s, ndx - radius, ndx + radius + 1) > 0
    ensures ndx >= radius + 1 ==> ClippedSize(s, ndx - 1 - radius, ndx + radius) > 0
    ensures ClippedSize(s, -1 - radius, radius) == radius
  {}

  /** Which pixels the slide at ndx takes out and in. */
  lemma {:induction false} SlideCases(sum: seq<real>, s: Row, channels: nat, ndx: nat, radius: nat)
    requires channels <= |sum| && BlurSpec.Shaped(s, channels) && radius <= |s| && ndx <= |s| + radius
    ensures |Dropped(sum, s, channels, ndx, radius)| == |sum|
    ensures Slid(sum, s, channels, ndx - 1 - radius, ndx + radius) ==
      if ndx < |s| && ndx < |s| - radius then SumPlus(Dropped(sum, s, channels, ndx, radius), s[ndx + radius], 1.0)
      else Dropped(sum, s, channels, ndx, radius)
    ensures Dropped(sum, s, channels, ndx, radius) ==
      if ndx >= radius + 1 then SumPlus(sum, s[ndx - radius - 1], -1.0) else sum
  {}

  /** The running sum without the pixel that has left the window. */
  function Dropped(sum: seq<real>, s: Row, channels: nat, ndx: nat, radius: nat): seq<real>
    requires channels <= |sum| && BlurSpec.Shaped(s, channels) && ndx <= |s| + radius
  {
    if ndx >= radius + 1 then SumPlus(sum, s[ndx - radius - 1], -1.0) else sum
  }

  /** Takes in the pixel that enters the window, if there is one, and delays the mean. */
  method DelayMean(sum: array<real>, count: nat, row: array2<real>, radius: nat, ndx: nat, buffer: array2<real>,
                   circ: nat, ghost s: Row, ghost before: seq<real>)
    returns (next: nat)
    requires row != buffer && row.Length1 == buffer.Length1 <= sum.Length == |before|
    requires radius <= row.Length0 && ndx < row.Length0 && circ < radius + 1 <= buffer.Length0
    requires |s| == row.Length0 && BlurSpec.Shaped(s, row.Length1)
    requires var t := BoxBlurred(s, radius, row.Length1);
             Written(row, s, t, ndx - radius) && Delayed(buffer, t, ndx, circ, radius + 1)
    requires SumsAre(before, s, row.Length1, ndx - 1 - radius, ndx + radius)
    requires sum[..] == Dropped(before, s, row.Length1, ndx, radius)
    requires count + (if ndx < row.Length0 - radius then 1 else 0) == ClippedSize(s, ndx - radius, ndx + radius + 1)
    modifies sum, buffer
    ensures SumsAre(sum[..], s, row.Length1, ndx - radius, ndx + radius + 1)
    ensures next == ClippedSize(s, ndx - radius, ndx + radius + 1)
    ensures Delayed(buffer, BoxBlurred(s, radius, row.Length1), ndx + 1, NextSlot(circ, radius + 1), radius + 1)
  {
    hide *;
    ghost var t := BoxBlurred(s, radius, row.Length1);
    SlideCases(before, s, row.Length1, ndx, radius);
    SlideSums(before, s, row.Length1, ndx - 1 - radius, ndx + radius);
    CountSlides(s, ndx, radius);
    next := count;
    if ndx < row.Length0 - radius {
      TakePixel(sum, row, s, t, ndx - radius, ndx + radius, 1.0);
      next := next + 1;
    }
    var standard := radius * 2 + 1;
    var factor := if next != standard then Reciprocal(next) else Reciprocal(standard);
    BoxMeans(sum[..], s, radius, row.Length1, ndx, next, factor);
    Delay(buffer, t, ndx, circ, radius + 1, sum, factor);
  }

  /** One pass of the box blur over a row, in place. */
  method BoxBlurPass(row: array2<real>, radius: nat, buffer: array2<real>)
    requires row != buffer && row.Length1 == buffer.Length1 <= 4
    requires radius <= row.Length0 && radius + 1 <= buffer.Length0
    modifies row, buffer
    ensures Pixels(row) == BoxBlurred(old(Pixels(row)), radius, row.Length1)
  {
    hide *;
    ghost var s := Pixels(row);
    ghost var t := BoxBlurred(s, radius, row.Length1);
    var w, slots: nat := row.Length0, radius + 1;
    var sum := new real[4](c => 0.0);
    SumFirst(sum, row, radius);
    var count: nat, circ: nat := radius, 0;
    NoneWritten(row, buffer, t, slots, 0 - slots);
    CountSlides(s, 0, radius);
    for ndx: nat := 0 to w + slots
      invariant circ < slots && Written(row, s, t, ndx - slots) && Delayed(buffer, t, ndx, circ, slots)
      invariant SumsAre(sum[..], s, row.Length1, ndx - 1 - radius, ndx + radius)
      invariant count == ClippedSize(s, ndx - 1 - radius, ndx + radius)
    {
      ghost var before := sum[..];
      CountSlides(s, ndx, radius);
      SlideCases(before, s, row.Length1, ndx, radius);
      if ndx >= slots {
        TakePixel(sum, row, s, t, ndx - slots, ndx - radius - 1, -1.0);
        count := count - 1;
        OldestDelayed(buffer, t, ndx, circ, slots);
        FlushSlot(row, s, t, ndx - slots, buffer, circ);
      } else {
        FlushedBelow(row, s, t, ndx - slots, ndx - slots + 1);
      }
      if ndx < w {
        count := DelayMean(sum, count, row, radius, ndx, buffer, circ, s, before);
      } else {
        SlideSums(before, s, row.Length1, ndx - 1 - radius, ndx + radius);
        DelayNothing(buffer, t, ndx, circ, slots);
      }
      circ := NextSlot(circ, slots);
    }
    AllWritten(row, s, t);
  }

  /** Any number of passes. */
  method BoxBlurRow(row: array2<real>, radius: nat, passes: nat, buffer: array2<real>)
    requires row != buffer && row.Length1 == buffer.Length1 <= 4
    requires radius <= row.Length0 && radius + 1 <= buffer.Length0
    modifies row, buffer
    ensures Pixels(row) == Passes(old(Pixels(row)), radius, row.Length1, passes)
  {
    for pass := 0 to passes
      invariant Pixels(row) == Passes(old(Pixels(row)), radius, row.Length1, pass)
    {
      BoxBlurPass(row, radius, buffer);
    }
  }

  // ---------- the blur whose two end pixels count half ----------

  ghost predicate HalfSumsAre(sum: seq<real>, s: Row, channels: nat, radius: nat, i: int)
    requires radius >= 1 && channels <= |sum| && BlurSpec.Shaped(s, channels)
  {
    forall c :: 0 <= c < channels ==> sum[c] == TwoBoxes(s, radius, i, c) * 0.5
  }

  /** The running sum moved to ndx: two pixels in at half, two out at half, those that exist. */
  function HalfSlid(sum: seq<real>, s: Row, channels: nat, radius: nat, ndx: nat): (next: seq<real>)
    requires channels <= |sum| && BlurSpec.Shaped(s, channels) && 1 <= radius <= |s| && ndx < |s|
    ensures |next| == |sum|
  {
    var a := if ndx < |s| - radius then SumPlus(sum, s[ndx + radius], 0.5) else sum;
    var b := if ndx < |s| - radius + 1 then SumPlus(a, s[ndx - 1 + radius], 0.5) else a;
    var c := if ndx >= radius then SumPlus(b, s[ndx - radius], -0.5) else b;
    if ndx >= radius + 1 then SumPlus(c, s[ndx - 1 - radius], -0.5) else c
  }

  lemma {:induction false} HalfSlide(sum: seq<real>, s: Row, channels: nat, radius: nat, ndx: nat)
    requires channels <= |sum| && BlurSpec.Shaped(s, channels) && 1 <= radius <= |s| && ndx < |s|
    requires HalfSumsAre(sum, s, channels, radius, ndx - 1)
    ensures HalfSumsAre(HalfSlid(sum, s, channels, radius, ndx), s, channels, radius, ndx)
  {
    forall c | 0 <= c < channels
      ensures HalfSlid(sum, s, channels, radius, ndx)[c] == TwoBoxes(s, radius, ndx, c) * 0.5
    {
      HalfSlideAt(sum, s, channels, radius, ndx, c);
    }
  }

  lemma {:induction false} HalfSlideAt(sum: seq<real>, s: Row, channels: nat, radius: nat, ndx: nat, c: nat)
    requires channels <= |sum| && BlurSpec.Shaped(s, channels) && 1 <= radius <= |s| && ndx < |s| && c < channels
    requires sum[c] == TwoBoxes(s, radius, ndx - 1, c) * 0.5
    ensures HalfSlid(sum, s, channels, radius, ndx)[c] == TwoBoxes(s, radius, ndx, c) * 0.5
  {
    hide Clipped, ClippedSize;
    SlideClipped(s, ndx - 1 - radius, ndx - 1 + radius, c);
    SlideClipped(s, ndx - radius, ndx + radius, c);
  }

  lemma {:induction false} HalfCountSlides(s: Row, ndx: nat, radius: nat)
    requires 1 <= radius <= |s| && ndx < |s|
    ensures TwoSizes(s, radius, ndx) == TwoSizes(s, radius, ndx - 1)
              + (if ndx < |s| - radius then 1 else 0) + (if ndx < |s| - radius + 1 then 1 else 0)
              - (if ndx >= radius then 1 else 0) - (if ndx >= radius + 1 then 1 else 0)
    ensures TwoSizes(s, radius, ndx) > 0 && TwoSizes(s, radius, -1) == 2 * radius - 1
  {}

  lemma {:induction false} HalfMeans(sum: seq<real>, s: Row, radius: nat, channels: nat, ndx: nat, count: real)
    requires |sum| >= channels && BlurSpec.Shaped(s, channels) && radius >= 1 && ndx < |s|
    requires HalfSumsAre(sum, s, channels, radius, ndx) && count == TwoSizes(s, radius, ndx) as real * 0.5 > 0.0
    ensures forall c :: 0 <= c < channels ==> sum[c] * (1.0 / count) == HalfEndsBlurred(s, radius, channels)[ndx][c]
  {
    forall c | 0 <= c < channels ensures sum[c] * (1.0 / count) == HalfEndsMean(s, radius, ndx, c) {
      ByReciprocal(sum[c], count);
    }
  }

  /** The sum over the first pixels, the last of them at half. */
  method SumFirstHalf(sum: array<real>, row: array2<real>, radius: nat) returns (count: real)
    requires 1 <= radius <= row.Length0 && row.Length1 <= sum.Length
    requires forall c :: 0 <= c < sum.Length ==> sum[c] == 0.0
    modifies sum
    ensures HalfSumsAre(sum[..], Pixels(row), row.Length1, radius, -1)
    ensures count == TwoSizes(Pixels(row), radius, -1) as real * 0.5
  {
    count := 0.0;
    for ndx := 0 to radius
      invariant forall c :: 0 <= c < row.Length1 ==>
        sum[c] == if ndx < radius then Sum(Pixels(row), 0, ndx, c)
                  else Sum(Pixels(row), 0, radius - 1, c) + row[radius - 1, c] * 0.5
      invariant count == if ndx < radius then ndx as real else radius as real - 0.5
    {
      var factor := if ndx == radius - 1 then 0.5 else 1.0;
      AddPixel(sum, row, ndx, factor);
      count := count + factor;
    }
  }

  /** What the misaligned blur leaves: the means in place, or moved one pixel to the right behind whatever the
      last slot of the work buffer held before. */
  function Aligned(t: Row, align: int, stale: seq<real>): (a: Row)
    requires t != []
    ensures |a| == |t| && (align == -1 ==> a == t)
    ensures align != -1 ==> a[0] == stale && forall i :: 0 < i < |t| ==> a[i] == t[i - 1]
  {
    if align == -1 then t else [stale] + t[..|t| - 1]
  }

  /** The pixel in the ring's last slot after n means were delayed: what was there before, or the last one put there. */
  function Resident(t: Row, stale: seq<real>, n: nat, slots: nat): seq<real>
    requires slots > 0 && n <= |t|
  {
    if n < slots then stale else LastThere(n, slots); t[n / slots * slots - 1]
  }

  lemma {:induction false} LastThere(n: nat, slots: nat)
    requires 0 < slots <= n
    ensures 0 <= n / slots * slots - 1 < n
  {}

  ghost predicate ResidentIn(buffer: array2<real>, t: Row, stale: seq<real>, n: nat, slots: nat)
    requires 0 < slots <= buffer.Length0 && n <= |t|
    reads buffer
  {
    |Resident(t, stale, n, slots)| == buffer.Length1 && SlotHolds(buffer, slots - 1, Resident(t, stale, n, slots))
  }

  lemma {:induction false} ResidentUnfold(buffer: array2<real>, t: Row, stale: seq<real>, n: nat, slots: nat)
    requires 0 < slots <= buffer.Length0 && n <= |t| && |stale| == buffer.Length1
    ensures ResidentIn(buffer, t, stale, n, slots) <==>
      |Resident(t, stale, n, slots)| == buffer.Length1 && SlotHolds(buffer, slots - 1, Resident(t, stale, n, slots))
    ensures n < slots ==> Resident(t, stale, n, slots) == stale
  {}

  lemma {:induction false} TurnRing(n: nat, slots: nat)
    requires slots > 0
    ensures n % slots < slots && (n < slots ==> n % slots == n) && NextSlot(n % slots, slots) == (n + 1) % slots
    ensures n % slots == slots - 1 ==> (n + 1) / slots * slots - 1 == n && n + 1 >= slots
    ensures n % slots != slots - 1 ==> (n + 1) / slots == n / slots
  {
    hide NextSlot;
    NextSlotIs(n % slots, slots);
    NextQuotient(n, slots);
    if n < slots { Memory.DivisionIs(n, slots, 0, n); }
  }

  lemma {:induction false} NextQuotient(n: nat, d: nat)
    requires d > 0
    ensures n % d == d - 1 ==> (n + 1) % d == 0 && (n + 1) / d == n / d + 1 && (n + 1) / d * d == n + 1 >= d
    ensures n % d != d - 1 ==> (n + 1) % d == n % d + 1 && (n + 1) / d == n / d
  {
    var q, m := n / d, n % d;
    assert n == q * d + m;
    assert (q + 1) * d == q * d + d;
    if m == d - 1 {
      Memory.DivisionIs(n + 1, d, q + 1, 0);
    } else {
      Memory.DivisionIs(n + 1, d, q, m + 1);
    }
  }

  /** One more mean delayed. */
  lemma {:induction false} ResidentStep(buffer: array2<real>, t: Row, stale: seq<real>, n: nat, slots: nat)
    requires 0 < slots <= buffer.Length0 && n < |t| && BlurSpec.Shaped(t, buffer.Length1) && |stale| == buffer.Length1
    requires Delayed(buffer, t, n + 1, (n + 1) % slots, slots)
    requires n % slots != slots - 1 ==>
      |Resident(t, stale, n, slots)| == buffer.Length1 && SlotHolds(buffer, slots - 1, Resident(t, stale, n, slots))
    ensures ResidentIn(buffer, t, stale, n + 1, slots)
  {
    TurnRing(n, slots);
    if n % slots == slots - 1 {
      assert NextSlot(n % slots, slots) == 0;
      assert SlotHolds(buffer, Back(0, 1, slots), t[n + 1 - 1]);
    }
  }

  /** The slot about to be written over a pixel holds what is due there. */
  lemma {:induction false} AlignedDue(buffer: array2<real>, t: Row, align: int, stale: seq<real>, ndx: nat, circ: nat,
                                      slots: nat)
    requires circ < slots <= buffer.Length0 && BlurSpec.Shaped(t, buffer.Length1) && |stale| == buffer.Length1
    requires (align == -1 || align == 1) && 0 <= ndx + (if align == -1 then 0 else 1) - slots < |t|
    requires Delayed(buffer, t, ndx, circ, slots)
    requires ndx < slots ==> circ == ndx && SlotHolds(buffer, slots - 1, stale)
    ensures var due := ndx + (if align == -1 then 0 else 1) - slots;
            SlotHolds(buffer, circ, Aligned(t, align, stale)[due])
  {
    if ndx >= slots { OldestDelayed(buffer, t, ndx, circ, slots); }
  }

  /** Moves the running sum to ndx. */
  method HalfSlideSum(sum: array<real>, count: real, row: array2<real>, radius: nat, ndx: nat, ghost s: Row,
                      ghost t: Row, ghost flushed: int)
    returns (next: real)
    requires |s| == |t| == row.Length0 && BlurSpec.Shaped(s, row.Length1) && BlurSpec.Shaped(t, row.Length1)
    requires row.Length1 <= sum.Length && 1 <= radius <= row.Length0 && ndx < row.Length0
    requires Written(row, s, t, flushed) && flushed <= ndx - 1 - radius
    requires HalfSumsAre(sum[..], s, row.Length1, radius, ndx - 1)
      && count == TwoSizes(s, radius, ndx - 1) as real * 0.5
    modifies sum
    ensures HalfSumsAre(sum[..], s, row.Length1, radius, ndx) && next == TwoSizes(s, radius, ndx) as real * 0.5
  {
    hide HalfSumsAre, TwoSizes, SumPlus, Written;
    HalfSlide(sum[..], s, row.Length1, radius, ndx);
    HalfCountSlides(s, ndx, radius);
    var w := row.Length0;
    next := count;
    if ndx < w - radius {
      TakePixel(sum, row, s, t, flushed, ndx + radius, 0.5);
      next := next + 0.5;
    }
    if ndx < w - radius + 1 {
      TakePixel(sum, row, s, t, flushed, ndx - 1 + radius, 0.5);
      next := next + 0.5;
    }
    if ndx >= radius {
      TakePixel(sum, row, s, t, flushed, ndx - radius, -0.5);
      next := next - 0.5;
    }
    if ndx >= radius + 1 {
      TakePixel(sum, row, s, t, flushed, ndx - 1 - radius, -0.5);
      next := next - 0.5;
    }
  }

  /** Writes the pixel that is due at ndx, if one is. */
  method FlushDue(row: array2<real>, radius: nat, ghost align: int, ndx: nat, writeOffset: nat, buffer: array2<real>,
                  ghost s: Row, ghost stale: seq<real>)
    requires row != buffer && row.Length1 == buffer.Length1 && |s| == row.Length0 && BlurSpec.Shaped(s, row.Length1)
    requires |stale| == row.Length1 && 1 <= radius <= |s| && radius + 2 <= buffer.Length0
    requires (align == -1 || align == 1) && writeOffset == (if align == -1 then 0 else 1)
    requires ndx + writeOffset < |s| + radius + 2
    requires var t := HalfEndsBlurred(s, radius, row.Length1);
             && Written(row, s, Aligned(t, align, stale), ndx + writeOffset - (radius + 2))
             && Delayed(buffer, t, ndx, ndx % (radius + 2), radius + 2)
             && ResidentIn(buffer, t, stale, if ndx < |s| then ndx else |s|, radius + 2)
    modifies row
    ensures Written(row, s, Aligned(HalfEndsBlurred(s, radius, row.Length1), align, stale),
                    ndx + 1 + writeOffset - (radius + 2))
  {
    hide *;
    ghost var t := HalfEndsBlurred(s, radius, row.Length1);
    AlignedShape(t, align, stale, row.Length1);
    var slots: nat := radius + 2;
    TurnRing(ndx, slots);
    if ndx >= slots - writeOffset {
      ResidentUnfold(buffer, t, stale, if ndx < |s| then ndx else |s|, slots);
      AlignedDue(buffer, t, align, stale, ndx, ndx % slots, slots);
      FlushSlot(row, s, Aligned(t, align, stale), ndx + writeOffset - slots, buffer, ndx % slots);
    } else {
      FlushedBelow(row, s, Aligned(t, align, stale), ndx + writeOffset - slots, ndx + 1 + writeOffset - slots);
    }
  }

  /** Delays the mean of the pixel at ndx. */
  method DelayHalfMean(sum: array<real>, count: real, radius: nat, ndx: nat, buffer: array2<real>, ghost s: Row,
                       ghost stale: seq<real>, ghost channels: nat)
    requires channels == buffer.Length1 <= sum.Length && BlurSpec.Shaped(s, channels) && |stale| == channels
    requires 1 <= radius <= |s| && ndx < |s| && radius + 2 <= buffer.Length0
    requires HalfSumsAre(sum[..], s, channels, radius, ndx) && count == TwoSizes(s, radius, ndx) as real * 0.5
    requires Delayed(buffer, HalfEndsBlurred(s, radius, channels), ndx, ndx % (radius + 2), radius + 2)
    requires ResidentIn(buffer, HalfEndsBlurred(s, radius, channels), stale, ndx, radius + 2)
    modifies buffer
    ensures Delayed(buffer, HalfEndsBlurred(s, radius, channels), ndx + 1, (ndx + 1) % (radius + 2), radius + 2)
    ensures ResidentIn(buffer, HalfEndsBlurred(s, radius, channels), stale, ndx + 1, radius + 2)
  {
    hide *;
    ghost var t := HalfEndsBlurred(s, radius, channels);
    var slots: nat := radius + 2;
    TurnRing(ndx, slots);
    ResidentUnfold(buffer, t, stale, ndx, slots);
    HalfCountSlides(s, ndx, radius);
    HalfMeans(sum[..], s, radius, channels, ndx, count);
    Delay(buffer, t, ndx, ndx % slots, slots, sum, 1.0 / count);
    ResidentStep(buffer, t, stale, ndx, slots);
  }

  /** The blur of even width, in place; it refuses any alignment but -1 and 1. */
  method MisalignedRow(row: array2<real>, radius: nat, align: int, buffer: array2<real>) returns (ok: bool)
    requires row != buffer && row.Length1 == buffer.Length1 <= 4
    requires 1 <= radius <= row.Length0 && radius + 2 <= buffer.Length0
    modifies row, buffer
    ensures ok <==> align == -1 || align == 1
    ensures !ok ==> Pixels(row) == old(Pixels(row))
    ensures ok ==>
      Pixels(row) ==
        Aligned(HalfEndsBlurred(old(Pixels(row)), radius, row.Length1), align, old(Pixels(buffer))[radius + 1])
    ensures ok ==>
      Pixels(buffer)[radius + 1] ==
        Resident(HalfEndsBlurred(old(Pixels(row)), radius, row.Length1), old(Pixels(buffer))[radius + 1], row.Length0,
                 radius + 2)
  {
    hide *;
    if align != 1 && align != -1 { return false; }
    ghost var s := Pixels(row);
    ghost var t, stale := HalfEndsBlurred(s, radius, row.Length1), Pixels(buffer)[radius + 1];
    ghost var out := Aligned(t, align, stale);
    SlotOfPixels(buffer, radius + 1);
    AlignedShape(t, align, stale, row.Length1);
    var slots: nat, writeOffset, w := radius + 2, if align == -1 then 0 else 1, row.Length0;
    var sum := new real[4](c => 0.0);
    var count := SumFirstHalf(sum, row, radius);
    var circ: nat := 0;
    NoneWritten(row, buffer, out, slots, writeOffset - slots);
    NoneWritten(row, buffer, t, slots, writeOffset - slots);
    ResidentUnfold(buffer, t, stale, 0, slots);
    TurnRing(0, slots);
    for ndx: nat := 0 to w + slots - writeOffset
      invariant circ < slots && Written(row, s, out, ndx + writeOffset - slots) && Delayed(buffer, t, ndx, circ, slots)
      invariant circ == ndx % slots && ResidentIn(buffer, t, stale, if ndx < w then ndx else w, slots)
      invariant ndx <= w ==> HalfSumsAre(sum[..], s, row.Length1, radius, ndx - 1)
      invariant ndx <= w ==> count == TwoSizes(s, radius, ndx - 1) as real * 0.5
    {
      TurnRing(ndx, slots);
      if ndx < w {
        count := HalfSlideSum(sum, count, row, radius, ndx, s, out, ndx + writeOffset - slots);
      }
      FlushDue(row, radius, align, ndx, writeOffset, buffer, s, stale);
      if ndx < w {
        DelayHalfMean(sum, count, radius, ndx, buffer, s, stale, row.Length1);
      } else {
        DelayNothing(buffer, t, ndx, circ, slots);
      }
      circ := NextSlot(circ, slots);
    }
    AllWritten(row, s, out);
    ResidentUnfold(buffer, t, stale, w, slots);
    SlotOfPixels(buffer, radius + 1);
    SamePixel(buffer, radius + 1, Pixels(buffer)[radius + 1], Resident(t, stale, w, slots));
    return true;
  }

  lemma {:induction false} AlignedShape(t: Row, align: int, stale: seq<real>, channels: nat)
    requires t != [] && BlurSpec.Shaped(t, channels) && |stale| == channels
    ensures |Aligned(t, align, stale)| == |t| && BlurSpec.Shaped(Aligned(t, align, stale), channels)
  {}

  lemma {:induction false} SamePixel(buffer: array2<real>, slot: nat, a: seq<real>, b: seq<real>)
    requires slot < buffer.Length0 && |a| == |b| == buffer.Length1
    requires SlotHolds(buffer, slot, a) && SlotHolds(buffer, slot, b)
    ensures a == b
  {}

  lemma {:induction false} SlotOfPixels(buffer: array2<real>, slot: nat)
    requires slot < buffer.Length0
    ensures |Pixels(buffer)[slot]| == buffer.Length1 && SlotHolds(buffer, slot, Pixels(buffer)[slot])
  {}

  // ---------- which pixels the blur of even width reads ----------

  /** The step at ndx reads pixel ix of a row of w; indices are unsigned and wrap. */
  predicate ReadsPixel(w: nat, radius: nat, ndx: nat, ix: nat)
    requires radius <= w
  {
    || (ndx < w - radius && ix == ndx + radius)
    || (ndx < w - radius + 1 && ix == (ndx + 0xFFFF_FFFF + radius) % 0x1_0000_0000)
    || (ndx >= radius && ix == ndx - radius)
    || (ndx >= radius + 1 && ix == ndx - 1 - radius)
  }

  /** Every pixel read lies in the row exactly when the radius is one or more; with radius 0 the first step asks for
      the pixel before the row, whose index wraps. */
  lemma {:induction false} ReadsInside(w: nat, radius: nat)
    requires 1 <= w < 0x8000_0000 && radius <= w
    ensures (forall ndx: nat, ix: nat :: ndx < w && ReadsPixel(w, radius, ndx, ix) ==> ix < w) <==> radius >= 1
    ensures radius == 0 ==> ReadsPixel(w, radius, 0, 0xFFFF_FFFF)
  {
    if radius == 0 { assert ReadsPixel(w, radius, 0, 0xFFFF_FFFF); }
  }
}
