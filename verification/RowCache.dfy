// The resampler's vertical pass: input rows are kept in a few buffer slots and
// rescaled in place from one weight to the next, then scaled horizontally.

module RowCache {
  import opened Options
  import opened Numbers
  import opened WeightedRows
  import opened SlotTags

  lemma {:induction false} Rescale(x: real, from: real, to: real)
    requires from != 0.0
    ensures (from * x) * (to / from) == to * x
  {
    assert to == from * (to / from);
  }

  class Cache {
    const slots: nat
    const rowFloats: nat
    const buf: array2<real>  // one row per slot, then the output row
    const rowCoefficients: array<real>
    const rowIndexes: array<int>

    ghost predicate Shaped()
      reads this
    {
      && buf.Length0 == slots + 1 && buf.Length1 == rowFloats
      && rowCoefficients.Length == slots && rowIndexes.Length == slots
    }

    /** Slot i holds its recorded coefficient times the source row it is tagged with. */
    ghost predicate SlotHolds(src: seq<seq<real>>, i: int)
      requires Shaped() && 0 <= i < slots
      reads this, buf, rowCoefficients, rowIndexes
    {
      && -1 <= rowIndexes[i] < |src| && rowCoefficients[i] != 0.0
      && (rowIndexes[i] >= 0 ==>
            && |src[rowIndexes[i]]| == rowFloats
            && forall k :: 0 <= k < rowFloats ==> buf[i, k] == rowCoefficients[i] * src[rowIndexes[i]][k])
    }

    ghost predicate Valid(src: seq<seq<real>>)
      reads this, buf, rowCoefficients, rowIndexes
    {
      && Shaped()
      && (forall i :: 0 <= i < slots ==> SlotHolds(src, i))
      && DistinctTags(rowIndexes[..])
    }

    constructor (slots: nat, rowFloats: nat)
      ensures fresh(buf) && fresh(rowCoefficients) && fresh(rowIndexes)
      ensures this.slots == slots && this.rowFloats == rowFloats
      ensures forall src :: Valid(src)
      ensures rowIndexes[..] == seq(slots, i => -1)
    {
      this.slots, this.rowFloats := slots, rowFloats;
      buf := new real[slots + 1, rowFloats];
      rowCoefficients := new real[slots](i => 1.0);
      rowIndexes := new int[slots](i => -1);
    }

    /** Looks for the row in the buffer, then for a slot whose row lies before the window. */
    method FindSlot(left: int, row: int) returns (ix: int, loaded: bool)
      requires Shaped()
      ensures ix == SlotFor(rowIndexes[..], left, row) && loaded == (row in rowIndexes[..])
    {
      ix, loaded := -1, false;
      var i := 0;
      while i < slots
        invariant i <= slots && row !in rowIndexes[..i]
      {
        if rowIndexes[i] == row {
          FirstWhereIs(rowIndexes[..], t => t == row, i);
          return i, true;
        }
        i := i + 1;
      }
      assert rowIndexes[..] == rowIndexes[..slots];
      i := 0;
      while i < slots
        invariant i <= slots && forall j :: 0 <= j < i ==> rowIndexes[j] >= left
      {
        if rowIndexes[i] < left {
          FirstWhereIs(rowIndexes[..], t => t < left, i);
          return i, false;
        }
        i := i + 1;
      }
    }

    method LoadRow(ghost src: seq<seq<real>>, ix: nat, row: nat, linear: seq<real>)
      requires Valid(src) && ix < slots && row < |src| && linear == src[row] && |linear| == rowFloats
      requires row !in rowIndexes[..]
      modifies buf, rowCoefficients, rowIndexes
      ensures Valid(src) && rowIndexes[..] == old(rowIndexes[..])[ix := row]
      ensures forall k :: 0 <= k < rowFloats ==> buf[slots, k] == old(buf[slots, k])
    {
      for k := 0 to rowFloats
        invariant forall j :: 0 <= j < k ==> buf[ix, j] == linear[j]
        invariant forall i, j :: 0 <= i <= slots && i != ix && 0 <= j < rowFloats ==> buf[i, j] == old(buf[i, j])
        modifies buf
      {
        buf[ix, k] := linear[k];
      }
      rowCoefficients[ix] := 1.0;
      rowIndexes[ix] := row;
      forall i | 0 <= i < slots && i != ix ensures SlotHolds(src, i) { assert old(SlotHolds(src, i)); }
    }

    method MultiplyRow(ix: nat, coefficient: real)
      requires Shaped() && ix < slots
      modifies buf
      ensures forall i, k :: 0 <= i <= slots && 0 <= k < rowFloats ==>
        buf[i, k] == if i == ix then old(buf[i, k]) * coefficient else old(buf[i, k])
    {
      for j := 0 to rowFloats
        invariant forall i, k :: 0 <= i <= slots && 0 <= k < rowFloats ==>
          buf[i, k] == if i == ix && k < j then old(buf[i, k]) * coefficient else old(buf[i, k])
      {
        buf[ix, j] := buf[ix, j] * coefficient;
      }
    }

    /** Adds the row in slot ix to the output row. */
    method AddRow(ix: nat)
      requires Shaped() && ix < slots
      modifies buf
      ensures forall i, k :: 0 <= i <= slots && 0 <= k < rowFloats ==>
        buf[i, k] == if i == slots then old(buf[i, k]) + old(buf[ix, k]) else old(buf[i, k])
    {
      for j := 0 to rowFloats
        invariant forall i, k :: 0 <= i <= slots && 0 <= k < rowFloats ==>
          buf[i, k] == if i == slots && k < j then old(buf[i, k]) + old(buf[ix, k]) else old(buf[i, k])
      {
        buf[slots, j] := buf[slots, j] + buf[ix, j];
      }
    }

    /** Brings the row in slot ix to this weight, unless that is next to nothing, and adds it to the output row. */
    method Weigh(ghost src: seq<seq<real>>, ix: nat, ghost row: nat, weight: real)
      requires Valid(src) && ix < slots && rowIndexes[ix] == row < |src| && |src[row]| == rowFloats
      modifies buf, rowCoefficients
      ensures Valid(src)
      ensures forall k :: 0 <= k < rowFloats ==>
        buf[slots, k] == old(buf[slots, k]) + if Kept(weight) then weight * src[row][k] else 0.0
    {
      if Magnitude(weight) > NOTHING {
        ghost var c := rowCoefficients[ix];
        assert SlotHolds(src, ix);
        var delta := weight / rowCoefficients[ix];
        MultiplyRow(ix, delta);
        rowCoefficients[ix] := weight;
        forall k | 0 <= k < rowFloats ensures buf[ix, k] == weight * src[row][k] {
          Rescale(src[row][k], c, weight);
        }
        AddRow(ix);
        forall i | 0 <= i < slots ensures SlotHolds(src, i) {
          assert old(SlotHolds(src, i));
          assert forall k :: 0 <= k < rowFloats && i != ix ==> buf[i, k] == old(buf[i, k]);
        }
      }
    }

    /** The row in the output slot. */
    ghost function Output(): (row: seq<real>)
      requires Shaped()
      reads this, buf
      ensures |row| == rowFloats
    {
      seq(rowFloats, k requires 0 <= k < rowFloats && Shaped() reads this, buf => buf[slots, k])
    }

    method ClearOutput(ghost src: seq<seq<real>>)
      requires Valid(src)
      modifies buf
      ensures Valid(src) && forall k :: 0 <= k < rowFloats ==> buf[slots, k] == 0.0
    {
      for k := 0 to rowFloats
        invariant forall j :: 0 <= j < k ==> buf[slots, j] == 0.0
        invariant forall i, j :: 0 <= i < slots && 0 <= j < rowFloats ==> buf[i, j] == old(buf[i, j])
      {
        buf[slots, k] := 0.0;
      }
      forall i | 0 <= i < slots ensures SlotHolds(src, i) { assert old(SlotHolds(src, i)); }
    }

    /** Finds or loads one row of the window and adds its share to the output row. */
    method RenderInput(src: seq<seq<real>>, left: int, row: nat, weight: real) returns (ok: bool)
      requires Valid(src) && Rectangular(src, rowFloats) && row < |src|
      modifies buf, rowCoefficients, rowIndexes
      ensures Valid(src) && ok == (SlotFor(old(rowIndexes[..]), left, row) >= 0)
      ensures ok ==> rowIndexes[..] == old(rowIndexes[..])[SlotFor(old(rowIndexes[..]), left, row) := row]
      ensures ok ==> Output() == AddShare(old(Output()), weight, src[row])
    {
      var ix, loaded := FindSlot(left, row);
      if ix < 0 { return false; }
      if !loaded {
        LoadRow(src, ix, row, src[row]);
      }
      assert rowIndexes[..][ix] == row;
      assert rowIndexes[..] == old(rowIndexes[..])[ix := row];
      Weigh(src, ix, row, weight);
      return true;
    }

    /** Computes one output row of the vertical pass; fails when a row of the window finds no slot. */
    method RenderVertical(src: seq<seq<real>>, w: Window) returns (ok: bool)
      requires Valid(src) && Rectangular(src, rowFloats) && Inside(w, |src|)
      modifies buf, rowCoefficients, rowIndexes
      ensures Valid(src) && Shaped()
      ensures TouchFrom(old(rowIndexes[..]), w.left, w.left, w.right) == if ok then Some(rowIndexes[..]) else None
      ensures ok ==> Output() == VerticalRow(w, src, rowFloats)
    {
      hide SlotHolds, DistinctTags, VerticalSum, AddShare, Kept, SlotFor, Rectangular;
      ClearOutput(src);
      NoRows(w.left, src, rowFloats);
      if w.right < w.left { return true; }
      var row := w.left;
      assert w.weights[..0] == [];
      while row <= w.right
        invariant w.left <= row <= w.right + 1 && Valid(src)
        invariant TouchFrom(old(rowIndexes[..]), w.left, w.left, w.right) ==
          TouchFrom(rowIndexes[..], w.left, row, w.right)
        invariant Output() == SumOfRows(w.weights[..row - w.left], w.left, src, rowFloats)
      {
        var found := RenderInput(src, w.left, row, w.weights[row - w.left]);
        if !found { return false; }
        NextRow(w, src, rowFloats, row);
        row := row + 1;
      }
      assert w.weights[..row - w.left] == w.weights;
      return true;
    }

    /** One pixel of the output row scaled horizontally. */
    method ScalePixel(w: Window, width: nat) returns (sums: seq<real>)
      requires Shaped() && rowFloats == CHANNELS * width && Inside(w, width)
      ensures sums == HorizontalPixel(w, Output(), width)
    {
      sums := [0.0, 0.0, 0.0, 0.0];
      if w.right < w.left { return; }
      var i := w.left;
      while i <= w.right
        invariant w.left <= i <= w.right + 1 && |sums| == CHANNELS
        invariant forall c :: 0 <= c < CHANNELS ==>
          sums[c] == HorizontalSum(w.weights[..i - w.left], w.left, Output(), c)
      {
        var factor, at := w.weights[i - w.left], CHANNELS * i;
        assert w.weights[..i + 1 - w.left][..i - w.left] == w.weights[..i - w.left];
        sums := [sums[0] + factor * buf[slots, at], sums[1] + factor * buf[slots, at + 1],
                 sums[2] + factor * buf[slots, at + 2], sums[3] + factor * buf[slots, at + 3]];
        i := i + 1;
      }
      assert w.weights[..i - w.left] == w.weights;
    }

    /** The output row scaled horizontally, four channels a pixel. */
    method ScaleRow(windows: seq<Window>, width: nat) returns (dest: seq<real>)
      requires Shaped() && rowFloats == CHANNELS * width && AllInside(windows, width)
      ensures dest == HorizontalRow(windows, Output(), width)
    {
      dest := [];
      for x := 0 to |windows|
        invariant dest == HorizontalRow(windows[..x], Output(), width)
      {
        var pixel := ScalePixel(windows[x], width);
        assert windows[..x + 1][..x] == windows[..x];
        dest := dest + pixel;
      }
      assert windows[..|windows|] == windows;
    }
  }

  method MaxInputRows(windows: seq<Window>) returns (largest: nat)
    ensures largest == LargestSize(windows)
  {
    largest := 0;
    for u := 0 to |windows|
      invariant largest == LargestSize(windows[..u])
    {
      assert windows[..u + 1][..u] == windows[..u];
      var inputs := windows[u].right - windows[u].left + 1;
      if inputs > largest { largest := inputs; }
    }
    assert windows[..|windows|] == windows;
  }

  lemma {:induction false} TouchAllStops(tags: seq<int>, windows: seq<Window>, n: nat)
    requires n <= |windows| && TouchAll(tags, windows[..n]).None?
    ensures TouchAll(tags, windows).None?
    decreases |windows|
  {
    if n < |windows| {
      var shorter := windows[..|windows| - 1];
      assert shorter[..n] == windows[..n];
      TouchAllStops(tags, shorter, n);
    } else {
      assert windows[..n] == windows;
    }
  }

  lemma {:induction false} TouchAllNext(windows: seq<Window>, y: nat, tags: seq<int>)
    requires y < |windows| && TouchAll(FreshTags(windows), windows[..y]) == Some(tags)
    ensures TouchAll(FreshTags(windows), windows[..y + 1]) ==
            TouchFrom(tags, windows[y].left, windows[y].left, windows[y].right)
    ensures TouchAll(FreshTags(windows), windows[..y + 1]).None? ==> !NeverFull(windows)
  {
    assert windows[..y + 1][..y] == windows[..y];
    if TouchAll(FreshTags(windows), windows[..y + 1]).None? { TouchAllStops(FreshTags(windows), windows, y + 1); }
  }

  lemma {:induction false} TouchAllEnds(windows: seq<Window>)
    ensures TouchAll(FreshTags(windows), windows[..0]) == Some(FreshTags(windows))
    ensures TouchAll(FreshTags(windows), windows[..|windows|]).Some? ==> NeverFull(windows)
  {
    assert windows[..|windows|] == windows;
  }

  lemma {:induction false} InsideAt(windows: seq<Window>, inputs: nat)
    requires AllInside(windows, inputs)
    ensures forall u :: 0 <= u < |windows| ==> Inside(windows[u], inputs)
  {}

  /** Renders every output row; None is the buffer being found too small. The rows handed on to compositing. */
  method Render(src: seq<seq<real>>, width: nat, vertical: seq<Window>, horizontal: seq<Window>)
    returns (r: Option<seq<seq<real>>>)
    requires Rectangular(src, CHANNELS * width)
    requires AllInside(vertical, |src|) && AllInside(horizontal, width)
    ensures r.Some? <==> NeverFull(vertical)
    ensures r.Some? ==> |r.value| == |vertical|
    ensures r.Some? ==> forall y :: 0 <= y < |vertical| ==>
      r.value[y] == HorizontalRow(horizontal, VerticalRow(vertical[y], src, CHANNELS * width), width)
  {
    hide *;
    InsideAt(vertical, |src|);
    var largest := MaxInputRows(vertical);
    var cache := new Cache(largest, CHANNELS * width);
    TouchAllEnds(vertical);
    assert cache.rowIndexes[..] == FreshTags(vertical);
    var rows := [];
    for y := 0 to |vertical|
      invariant cache.Valid(src) && |rows| == y
      invariant fresh(cache.buf) && fresh(cache.rowCoefficients) && fresh(cache.rowIndexes)
      invariant TouchAll(FreshTags(vertical), vertical[..y]) == Some(cache.rowIndexes[..])
      invariant forall v :: 0 <= v < y ==>
        rows[v] == HorizontalRow(horizontal, VerticalRow(vertical[v], src, CHANNELS * width), width)
    {
      TouchAllNext(vertical, y, cache.rowIndexes[..]);
      var ok := cache.RenderVertical(src, vertical[y]);
      if !ok { return None; }
      var dest := cache.ScaleRow(horizontal, width);
      rows := rows + [dest];
    }
    return Some(rows);
  }

  lemma {:induction false} FirstWhereIs(tags: seq<int>, p: int -> bool, i: nat)
    requires i < |tags| && p(tags[i]) && forall j :: 0 <= j < i ==> !p(tags[j])
    ensures FirstWhere(tags, p) == i
  {}
}
