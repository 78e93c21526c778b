// Which buffer slots hold which input rows over a run of windows, apart from
// what the slots contain, and when a slot is found for every row.

module SlotTags {
  import opened Options
  import opened Numbers
  import opened WeightedRows

  // ---------- which slots hold which rows, apart from what they contain ----------

  /** The first slot holding exactly this row, else the first holding one before left, else none. */
  function SlotFor(tags: seq<int>, left: int, row: int): (ix: int)
    ensures -1 <= ix < |tags|
    ensures row in tags ==> ix >= 0 && tags[ix] == row
    ensures row !in tags && ix >= 0 ==> tags[ix] < left
    ensures ix < 0 ==> forall i :: 0 <= i < |tags| ==> tags[i] >= left && tags[i] != row
  {
    var held := FirstWhere(tags, t => t == row);
    if held >= 0 then held else FirstWhere(tags, t => t < left)
  }

  function FirstWhere(tags: seq<int>, p: int -> bool): (ix: int)
    ensures -1 <= ix < |tags|
    ensures ix >= 0 ==> p(tags[ix]) && forall i :: 0 <= i < ix ==> !p(tags[i])
    ensures ix < 0 ==> forall i :: 0 <= i < |tags| ==> !p(tags[i])
  {
    if tags == [] then -1
    else if p(tags[0]) then 0
    else
      var ix := FirstWhere(tags[1..], p);
      assert forall i :: 0 < i < |tags| ==> tags[i] == tags[1..][i - 1];
      if ix < 0 then -1 else ix + 1
  }

  /** The tags after rows row..right of a window starting at left were asked for; None when one found no slot. */
  function TouchFrom(tags: seq<int>, left: int, row: int, right: int): Option<seq<int>>
    decreases right - row
  {
    if row > right then Some(tags)
    else
      var ix := SlotFor(tags, left, row);
      if ix < 0 then None else TouchFrom(tags[ix := row], left, row + 1, right)
  }

  function TouchAll(tags: seq<int>, windows: seq<Window>): Option<seq<int>> {
    if windows == [] then Some(tags)
    else
      var n := |windows| - 1;
      var before := TouchAll(tags, windows[..n]);
      if before.None? then None else TouchFrom(before.value, windows[n].left, windows[n].left, windows[n].right)
  }

  function LargestSize(windows: seq<Window>): (n: nat)
    ensures forall u :: 0 <= u < |windows| ==> Size(windows[u]) <= n
    ensures n == 0 || exists u :: 0 <= u < |windows| && Size(windows[u]) == n
  {
    if windows == [] then 0
    else
      var last := |windows| - 1;
      var n := LargestSize(windows[..last]);
      if Size(windows[last]) > n then Size(windows[last]) else n
  }

  /** The buffer has as many slots as the largest window has rows, all unused at first. */
  function FreshTags(windows: seq<Window>): (tags: seq<int>)
    ensures |tags| == LargestSize(windows) && forall i :: 0 <= i < |tags| ==> tags[i] == -1
  {
    seq(LargestSize(windows), i => -1)
  }

  /** No row of any window is ever asked for in vain. */
  predicate NeverFull(windows: seq<Window>) {
    TouchAll(FreshTags(windows), windows).Some?
  }

  /** No source row is tagged twice. */
  ghost predicate DistinctTags(tags: seq<int>) {
    forall i, j :: 0 <= i < j < |tags| && tags[i] >= 0 ==> tags[i] != tags[j]
  }

  /** Loading one row forgets no row of the current window and keeps the tags distinct. */
  lemma {:induction false} TouchKeepsWindow(tags: seq<int>, left: int, row: int)
    requires SlotFor(tags, left, row) >= 0 && DistinctTags(tags)
    ensures DistinctTags(tags[SlotFor(tags, left, row) := row])
    ensures forall t :: t in tags && t >= left ==> t in tags[SlotFor(tags, left, row) := row]
  {
    var ix := SlotFor(tags, left, row);
    forall t | t in tags && t >= left ensures t in tags[ix := row] {
      var i :| 0 <= i < |tags| && tags[i] == t;
      assert tags[ix := row][i] == t || (i == ix && row in tags);
      assert tags[ix := row][ix] == row;
    }
  }

  // ---------- the slots suffice ----------

  function Interval(lo: int, hi: int): (s: set<int>)
    ensures forall x :: x in s <==> lo <= x < hi
    ensures |s| == if lo < hi then hi - lo else 0
    decreases hi - lo
  {
    if lo >= hi then {} else Interval(lo, hi - 1) + {hi - 1}
  }

  lemma {:induction false} DistinctSize(tags: seq<int>)
    requires forall i, j :: 0 <= i < j < |tags| ==> tags[i] != tags[j]
    ensures |set t | t in tags| == |tags|
  {
    if tags != [] {
      DistinctSize(tags[1..]);
      assert (set t | t in tags) == {tags[0]} + set t | t in tags[1..];
    }
  }

  /** Pigeonhole: distinct tags within the window that miss one of its rows are fewer than its rows. */
  lemma {:induction false} TagsMissingRow(tags: seq<int>, left: int, row: int, right: int)
    requires left <= row <= right && forall i :: 0 <= i < |tags| ==> left <= tags[i] <= right && tags[i] != row
    requires forall i, j :: 0 <= i < j < |tags| ==> tags[i] != tags[j]
    ensures |tags| < right - left + 1
  {
    var held, others := (set t | t in tags), Interval(left, right + 1) - {row};
    assert held + (others - held) == others;
    DistinctSize(tags);
  }

  /** With a slot for every row of the window and no tag beyond it, a missing row finds a slot. */
  lemma {:induction false} MissingRowFindsSlot(tags: seq<int>, left: int, row: int, right: int)
    requires 0 <= left <= row <= right && right - left + 1 <= |tags|
    requires DistinctTags(tags) && forall i :: 0 <= i < |tags| ==> tags[i] <= right
    ensures SlotFor(tags, left, row) >= 0
  {
    if SlotFor(tags, left, row) < 0 {
      TagsMissingRow(tags, left, row, right);
    }
  }

  ghost predicate AllCached(tags: seq<int>, left: int, right: int) {
    forall t :: left <= t <= right ==> t in tags
  }

  /** Once every row found a slot they are all cached, and nothing from the window's start on was forgotten. */
  lemma {:induction false} TouchFromHolds(tags: seq<int>, left: int, row: int, right: int)
    requires left <= row && TouchFrom(tags, left, row, right).Some?
    ensures var after := TouchFrom(tags, left, row, right).value;
            && |after| == |tags| && AllCached(after, row, right)
            && forall t :: t in tags && t >= left ==> t in after
    decreases right - row
  {
    if row <= right {
      var ix := SlotFor(tags, left, row);
      var next := tags[ix := row];
      TouchFromHolds(next, left, row + 1, right);
      assert next[ix] == row;
      forall t | t in tags && t >= left ensures t in next {
        var i :| 0 <= i < |tags| && tags[i] == t;
        assert i != ix ==> next[i] == t;
      }
    }
  }

  /** A window all of whose rows are cached changes nothing. */
  lemma {:induction false} TouchFromCached(tags: seq<int>, left: int, row: int, right: int)
    requires AllCached(tags, row, right)
    ensures TouchFrom(tags, left, row, right) == Some(tags)
    decreases right - row
  {
    if row <= right {
      assert tags[SlotFor(tags, left, row) := row] == tags;
      TouchFromCached(tags, left, row + 1, right);
    }
  }

  ghost predicate StartsInside(windows: seq<Window>) {
    forall u :: 0 <= u < |windows| && Size(windows[u]) > 0 ==> 0 <= windows[u].left
  }

  /** What lies between the end of the first window and the start of the second fits this many slots. */
  predicate Spans(w1: Window, w2: Window, slots: nat) {
    Size(w1) > 0 && Size(w2) > 0 ==> w1.right - w2.left + 1 <= slots
  }

  /** From the start of each window to the end of any earlier one is no further than there are slots. */
  ghost predicate SpansFit(windows: seq<Window>, slots: nat) {
    forall u, v :: 0 <= u <= v < |windows| ==> Spans(windows[u], windows[v], slots)
  }

  /** No tag lies beyond the right end of all windows seen. */
  ghost predicate Reached(tags: seq<int>, windows: seq<Window>) {
    forall i :: 0 <= i < |tags| ==>
      tags[i] == -1 || exists u :: 0 <= u < |windows| && Size(windows[u]) > 0 && tags[i] <= windows[u].right
  }

  /** With a slot for every row from the window's start to the furthest tag or its own end, every row finds one. */
  lemma {:induction false} TouchFromSucceeds(tags: seq<int>, left: int, row: int, right: int, furthest: int)
    requires 0 <= left <= row && right <= furthest && furthest - left + 1 <= |tags|
    requires DistinctTags(tags) && forall i :: 0 <= i < |tags| ==> tags[i] <= furthest
    ensures TouchFrom(tags, left, row, right).Some?
    ensures DistinctTags(TouchFrom(tags, left, row, right).value)
    decreases right - row
  {
    if row <= right {
      MissingRowFindsSlot(tags, left, row, furthest);
      TouchKeepsWindow(tags, left, row);
      hide SlotFor, DistinctTags;
      TouchFromSucceeds(tags[SlotFor(tags, left, row) := row], left, row + 1, right, furthest);
    }
  }

  /** No tags are new but those of the window. */
  lemma {:induction false} TouchFromAddsRows(tags: seq<int>, left: int, row: int, right: int)
    requires TouchFrom(tags, left, row, right).Some?
    ensures var after := TouchFrom(tags, left, row, right).value;
            |after| == |tags| && forall i :: 0 <= i < |after| ==> after[i] in tags || after[i] <= right
    decreases right - row
  {
    hide SlotFor;
    if row <= right {
      var next := tags[SlotFor(tags, left, row) := row];
      TouchFromAddsRows(next, left, row + 1, right);
      forall t | t in next ensures t in tags || t == row {
        var i :| 0 <= i < |next| && next[i] == t;
      }
    }
  }

  /** The furthest tag that matters to a window: that of an earlier window's end, or its own end. */
  lemma {:induction false} Furthest(tags: seq<int>, windows: seq<Window>, w: Window) returns (furthest: int)
    requires Size(w) > 0 && 0 <= w.left && Reached(tags, windows) && Spans(w, w, |tags|)
    requires forall u :: 0 <= u < |windows| ==> Spans(windows[u], w, |tags|)
    ensures w.right <= furthest && furthest - w.left + 1 <= |tags|
    ensures forall i :: 0 <= i < |tags| ==> tags[i] <= furthest
  {
    furthest := w.right;
    for n := 0 to |tags|
      invariant w.right <= furthest && furthest - w.left + 1 <= |tags|
      invariant forall i :: 0 <= i < n ==> tags[i] <= furthest
    {
      furthest := Max(furthest, tags[n]);
    }
  }

  lemma {:induction false} ReachedNext(before: seq<int>, after: seq<int>, windows: seq<Window>, w: Window)
    requires Reached(before, windows) && Size(w) > 0
    requires forall i :: 0 <= i < |after| ==> after[i] in before || after[i] <= w.right
    ensures Reached(after, windows + [w])
  {
    var all := windows + [w];
    forall i | 0 <= i < |after| && after[i] != -1
      ensures exists u :: 0 <= u < |all| && Size(all[u]) > 0 && after[i] <= all[u].right
    {
      if after[i] <= w.right {
        assert all[|windows|] == w;
      } else {
        var u :| 0 <= u < |windows| && Size(windows[u]) > 0 && after[i] <= windows[u].right;
        assert all[u] == windows[u];
      }
    }
  }

  lemma {:induction false} ReachedStill(tags: seq<int>, windows: seq<Window>, w: Window)
    requires Reached(tags, windows)
    ensures Reached(tags, windows + [w])
  {
    var all := windows + [w];
    assert forall u :: 0 <= u < |windows| ==> all[u] == windows[u];
  }

  lemma {:induction false} TouchAllSucceeds(tags: seq<int>, windows: seq<Window>)
    requires DistinctTags(tags) && SpansFit(windows, |tags|) && StartsInside(windows)
    requires forall i :: 0 <= i < |tags| ==> tags[i] == -1
    ensures TouchAll(tags, windows).Some?
    ensures var after := TouchAll(tags, windows).value;
            |after| == |tags| && DistinctTags(after) && Reached(after, windows)
  {
    if windows != [] {
      var n := |windows| - 1;
      var some, w := windows[..n], windows[n];
      assert forall u :: 0 <= u < n ==> some[u] == windows[u];
      TouchAllSucceeds(tags, some);
      var before := TouchAll(tags, some).value;
      assert windows == some + [w];
      if Size(w) > 0 {
        var furthest := Furthest(before, some, w);
        TouchFromSucceeds(before, w.left, w.left, w.right, furthest);
        TouchFromAddsRows(before, w.left, w.left, w.right);
        ReachedNext(before, TouchAll(tags, windows).value, some, w);
      } else {
        ReachedStill(before, some, w);
      }
    }
  }

  /** When the spans fit the largest window, every row finds a slot. */
  lemma {:induction false} SpansFitNeverFull(windows: seq<Window>)
    requires SpansFit(windows, LargestSize(windows)) && StartsInside(windows)
    ensures NeverFull(windows)
  {
    TouchAllSucceeds(FreshTags(windows), windows);
  }

  /** The second window starts and ends before the first one does. */
  predicate FallsBack(w1: Window, w2: Window) {
    Size(w1) > 0 && Size(w2) > 0 && w2.left < w1.left && w2.right < w1.right
  }

  /** No window starts and ends before an earlier one; each end alone may do what it likes. */
  ghost predicate NoneFallsBack(windows: seq<Window>) {
    forall u, v :: 0 <= u < v < |windows| ==> !FallsBack(windows[u], windows[v])
  }

  /** Only a window that falls back can be too far from an earlier one. */
  lemma {:induction false} SpansUnlessBack(windows: seq<Window>)
    requires forall u, v :: 0 <= u < v < |windows| && FallsBack(windows[u], windows[v]) ==>
      Spans(windows[u], windows[v], LargestSize(windows))
    ensures SpansFit(windows, LargestSize(windows))
  {
    forall u, v | 0 <= u <= v < |windows| ensures Spans(windows[u], windows[v], LargestSize(windows)) {
      assert Size(windows[u]) <= LargestSize(windows) && Size(windows[v]) <= LargestSize(windows);
    }
  }

  /** While no window falls back at both ends at once, every row finds a slot. */
  lemma {:induction false} NoneFallsBackNeverFull(windows: seq<Window>)
    requires NoneFallsBack(windows) && StartsInside(windows)
    ensures NeverFull(windows)
  {
    SpansUnlessBack(windows);
    SpansFitNeverFull(windows);
  }

  // ---------- when they do not suffice ----------

  lemma {:induction false} TagsAtMost(tags: seq<int>, held: set<int>)
    requires forall t :: t in held ==> t in tags
    ensures |held| <= |tags|
  {
    if tags != [] {
      TagsAtMost(tags[1..], held - {tags[0]});
    } else {
      assert forall t :: t in held ==> t in tags;
    }
  }

  lemma {:induction false} FullStaysFull(tags: seq<int>, windows: seq<Window>, n: nat)
    requires n <= |windows| && TouchAll(tags, windows[..n]).None?
    ensures TouchAll(tags, windows).None?
    decreases |windows|
  {
    if n == |windows| {
      assert windows[..n] == windows;
    } else {
      assert windows[..|windows| - 1][..n] == windows[..n];
      FullStaysFull(tags, windows[..|windows| - 1], n);
    }
  }

  lemma {:induction false} TouchAllLength(tags: seq<int>, windows: seq<Window>)
    requires TouchAll(tags, windows).Some?
    ensures |TouchAll(tags, windows).value| == |tags|
  {
    if windows != [] {
      var n := |windows| - 1;
      TouchAllLength(tags, windows[..n]);
      TouchFromHolds(TouchAll(tags, windows[..n]).value, windows[n].left, windows[n].left, windows[n].right);
    }
  }

  /** Two windows of which the second falls back at both ends have more rows between them than either. */
  lemma {:induction false} TogetherLarger(w1: Window, w2: Window, tags: seq<int>)
    requires FallsBack(w1, w2) && AllCached(tags, w1.left, w1.right) && AllCached(tags, w2.left, w2.right)
    ensures Size(w1) < |tags| && Size(w2) < |tags|
  {
    var rows1, rows2 := Interval(w1.left, w1.right + 1), Interval(w2.left, w2.right + 1);
    TagsAtMost(tags, rows1 + {w2.left});
    TagsAtMost(tags, rows2 + {w1.right});
  }

  /** A window that falls back at both ends from the one just before it runs out of slots, if either is as large as
      the buffer. */
  lemma {:induction false} FallingBackFillsUp(windows: seq<Window>, u: nat)
    requires u + 1 < |windows| && FallsBack(windows[u], windows[u + 1])
    requires Max(Size(windows[u]), Size(windows[u + 1])) == LargestSize(windows)
    ensures !NeverFull(windows)
  {
    var unused, w1, w2 := FreshTags(windows), windows[u], windows[u + 1];
    var upTo := windows[..u + 2];
    assert upTo[..u + 1] == windows[..u + 1] && windows[..u + 1][..u] == windows[..u];
    if TouchAll(unused, upTo).Some? {
      var middle := TouchAll(unused, upTo[..u + 1]).value;
      var before := TouchAll(unused, windows[..u + 1][..u]).value;
      TouchFromHolds(before, w1.left, w1.left, w1.right);
      TouchFromHolds(middle, w2.left, w2.left, w2.right);
      TouchAllLength(unused, upTo);
      TogetherLarger(w1, w2, TouchAll(unused, upTo).value);
    }
    FullStaysFull(unused, windows, u + 2);
  }

  /** Two windows run out of slots exactly when the second falls back at both ends. */
  lemma {:induction false} TwoWindows(w1: Window, w2: Window)
    requires StartsInside([w1, w2])
    ensures NeverFull([w1, w2]) <==> !FallsBack(w1, w2)
  {
    var windows := [w1, w2];
    if FallsBack(windows[0], windows[1]) {
      FallingBackFillsUp(windows, 0);
    } else {
      NoneFallsBackNeverFull(windows);
    }
  }

  /** The windows at some places, in order. */
  function Picked(windows: seq<Window>, places: seq<nat>): (picked: seq<Window>)
    requires forall x :: 0 <= x < |places| ==> places[x] < |windows|
    ensures |picked| == |places| && forall x :: 0 <= x < |places| ==> picked[x] == windows[places[x]]
  {
    seq(|places|, x requires 0 <= x < |places| => windows[places[x]])
  }

  ghost predicate InOrder(places: seq<nat>, count: nat) {
    && (forall x :: 0 <= x < |places| ==> places[x] < count)
    && forall x, y :: 0 <= x < y < |places| ==> places[x] < places[y]
  }

  /** Exactly when the cache never runs out however many of the windows are left out. */
  lemma {:induction false} NeverFullWhateverIsLeftOut(windows: seq<Window>)
    requires StartsInside(windows)
    ensures NoneFallsBack(windows) <==>
            forall places: seq<nat> :: InOrder(places, |windows|) ==> NeverFull(Picked(windows, places))
  {
    if NoneFallsBack(windows) {
      forall places: seq<nat> | InOrder(places, |windows|) ensures NeverFull(Picked(windows, places)) {
        var picked := Picked(windows, places);
        assert forall x, y :: 0 <= x < y < |places| ==> !FallsBack(windows[places[x]], windows[places[y]]);
        NoneFallsBackNeverFull(picked);
      }
    } else {
      var u, v :| 0 <= u < v < |windows| && FallsBack(windows[u], windows[v]);
      assert Picked(windows, [u, v]) == [windows[u], windows[v]];
      TwoWindows(windows[u], windows[v]);
      assert InOrder([u, v], |windows|);
    }
  }
}
