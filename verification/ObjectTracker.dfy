// The context's object tracker: a growable table of records for every block
// the context handed out, with owner links, destructors and byte statistics.

module ObjectTracker {
  import opened Options
  import opened OwnershipForest
  import opened RecordTable

  /** What setting an attribute of a tracked object reports. */
  datatype Status = Done | InvalidArgument | ItemDoesNotExist

  class Tracker {
    var allocs: seq<Record>
    var nextFreeSlot: nat

    var allocationsGross: nat
    var allocationsNet: nat
    var allocationsNetPeak: nat
    var bytesAllocatedGross: nat
    var bytesAllocatedNet: nat
    var bytesAllocatedNetPeak: nat
    var bytesFreed: nat

    /** What running a destructor on an object reports. */
    const outcome: (nat, Ptr) -> bool

    /** The destructor runs and frees so far, and the frees reported to the statistics. */
    ghost var trace: seq<Event>
    ghost var frees: nat

    /** The statistics describe table s. */
    ghost predicate StatsMatch(s: seq<Record>)
      reads `allocationsGross, `allocationsNet, `allocationsNetPeak, `frees
      reads `bytesAllocatedGross, `bytesAllocatedNet, `bytesAllocatedNetPeak, `bytesFreed
    {
      && bytesAllocatedNet == SumBytes(s) == bytesAllocatedGross - bytesFreed
      && bytesAllocatedNet <= bytesAllocatedNetPeak <= bytesAllocatedGross
      && LiveCount(s) == allocationsGross - frees
      && allocationsNet == allocationsGross + frees <= allocationsNetPeak
    }

    /** Holds before and after every call from outside. */
    ghost predicate Valid()
      reads this
    {
      && Consistent(allocs)
      && AllPending(allocs)
      && LeastUnused(allocs, nextFreeSlot)
      && StatsMatch(allocs)
    }

    constructor (outcome: (nat, Ptr) -> bool)
      ensures Valid() && |allocs| == 0 && trace == [] && this.outcome == outcome
    {
      this.outcome := outcome;
      allocs := [];
      nextFreeSlot := 0;
      allocationsGross, allocationsNet, allocationsNetPeak := 0, 0, 0;
      bytesAllocatedGross, bytesAllocatedNet, bytesAllocatedNetPeak, bytesFreed := 0, 0, 0, 0;
      trace, frees := [], 0;
    }

    // ---------- statistics and lookup ----------

    lemma {:induction false} StatsCarryOver(s: seq<Record>, t: seq<Record>)
      requires StatsMatch(s) && SumBytes(t) == SumBytes(s) && LiveCount(t) == LiveCount(s)
      ensures StatsMatch(t)
    {}

    /** The net count of allocations is raised by frees too, as the code has it. */
    method UpdateStats(allocations: nat, freed: nat, allocatedBytes: nat, freedBytes: nat)
      requires freedBytes <= bytesAllocatedNet + allocatedBytes
      modifies `allocationsGross, `allocationsNet, `allocationsNetPeak, `frees
      modifies `bytesAllocatedGross, `bytesAllocatedNet, `bytesAllocatedNetPeak, `bytesFreed
      ensures allocationsGross == old(allocationsGross) + allocations && frees == old(frees) + freed
      ensures allocationsNet == old(allocationsNet) + allocations + freed
      ensures allocationsNetPeak ==
        if old(allocationsNetPeak) < allocationsNet then allocationsNet else old(allocationsNetPeak)
      ensures bytesAllocatedGross == old(bytesAllocatedGross) + allocatedBytes
        && bytesFreed == old(bytesFreed) + freedBytes
      ensures bytesAllocatedNet == old(bytesAllocatedNet) + allocatedBytes - freedBytes
      ensures bytesAllocatedNetPeak ==
              if old(bytesAllocatedNetPeak) < bytesAllocatedNet then bytesAllocatedNet else old(bytesAllocatedNetPeak)
    {
      allocationsGross := allocationsGross + allocations;
      allocationsNet := allocationsNet + allocations;
      allocationsNet := allocationsNet + freed;
      if allocationsNetPeak < allocationsNet { allocationsNetPeak := allocationsNet; }
      bytesAllocatedGross := bytesAllocatedGross + allocatedBytes;
      bytesAllocatedNet := bytesAllocatedNet + allocatedBytes - freedBytes;
      if bytesAllocatedNetPeak < bytesAllocatedNet { bytesAllocatedNetPeak := bytesAllocatedNet; }
      bytesFreed := bytesFreed + freedBytes;
      frees := frees + freed;
    }

    /** The recorded net count is the number of live objects only until the first free. */
    lemma {:induction false} NetCountDrifts()
      requires Valid()
      ensures allocationsNet == LiveCount(allocs) + 2 * frees
    {}

    /** Searches from the last slot down; -1 when there is no record of p. */
    method RecordIdOf(p: Ptr) returns (id: int)
      ensures -1 <= id < |allocs|
      ensures id >= 0 ==> allocs[id].ptr == p
      ensures id < 0 ==> forall i :: 0 <= i < |allocs| ==> allocs[i].ptr != p
      ensures forall i :: id < i < |allocs| ==> allocs[i].ptr != p
    {
      id := |allocs| - 1;
      while id >= 0
        invariant -1 <= id < |allocs|
        invariant forall i :: id < i < |allocs| ==> allocs[i].ptr != p
      {
        if allocs[id].ptr == p { return; }
        id := id - 1;
      }
    }

    // ---------- allocation ----------

    method ExpandRecordArray()
      requires nextFreeSlot == |allocs|
      modifies `allocs
      ensures allocs == Grown(old(allocs), nextFreeSlot)
    {
      var newSize := |allocs| * 2 + 1;
      if newSize < 64 { newSize := 64; }
      allocs := allocs + seq(newSize - |allocs|, i => UNUSED_RECORD);
    }

    /** Records a fresh block. Fails only when the table is full and cannot grow; a slot in use is never met. */
    method Add(ptr: Ptr, byteCount: nat, destructor: Option<nat>, owner: Ptr, canGrow: bool) returns (ok: bool)
      requires Valid() && ptr.Block? && !Live(Links(allocs), ptr)
      requires owner == Null || owner == Context || Live(Links(allocs), owner)
      modifies this
      ensures ok <==> canGrow || old(nextFreeSlot) < old(|allocs|)
      ensures Valid() && trace == old(trace)
      ensures ok ==>
        allocs == Added(old(allocs), old(nextFreeSlot), Record(ptr, byteCount, owner, destructor, false, false))
      ensures !ok ==> allocs == old(allocs)
      ensures bytesAllocatedGross == old(bytesAllocatedGross) + (if ok then byteCount else 0)
        && bytesFreed == old(bytesFreed)
    {
      hide Consistent, AllPending, Live, Links, Grown, Flagged, Added, SumBytes, LiveCount;
      ghost var s, k := allocs, nextFreeSlot;
      ghost var r := Record(ptr, byteCount, owner, destructor, false, false);
      AddedFacts(s, k, r);
      if nextFreeSlot == |allocs| {
        if !canGrow { return false; }
        ExpandRecordArray();
      }
      if k < |s| { GrownOnlyIfFull(s, k); }
      if allocs[nextFreeSlot].ptr != Null { return false; }
      allocs := allocs[nextFreeSlot := Record(ptr, byteCount, owner, destructor, false, false)];
      UpdateStats(1, 0, byteCount, 0);
      if owner != Null && owner != Context {
        OwnerStaysListed(s, k, r);
        var id := RecordIdOf(owner);
        allocs := allocs[id := allocs[id].(isOwner := true)];
      }
      FindNextSlot();
      return true;
    }

    /** Advances past the slot just filled to the next unused one, or to the end. */
    method FindNextSlot()
      requires nextFreeSlot < |allocs| && forall i :: 0 <= i <= nextFreeSlot ==> allocs[i].ptr != Null
      modifies `nextFreeSlot
      ensures LeastUnused(allocs, nextFreeSlot)
    {
      var i := nextFreeSlot + 1;
      while i < |allocs|
        invariant i <= |allocs| && forall j :: 0 <= j < i ==> allocs[j].ptr != Null
      {
        if allocs[i].ptr == Null {
          nextFreeSlot := i;
          return;
        }
        i := i + 1;
      }
      nextFreeSlot := |allocs|;
    }

    /** Allocates; block is what the underlying heap handed out, null when it had nothing. */
    method Malloc(byteCount: nat, destructor: Option<nat>, owner: Ptr, block: Ptr, canGrow: bool) returns (p: Ptr)
      requires Valid() && block != Context && !Live(Links(allocs), block)
      requires owner == Null || owner == Context || Live(Links(allocs), owner)
      modifies this
      ensures Valid()
      ensures p == if block.Block? && (canGrow || old(nextFreeSlot) < old(|allocs|)) then block else Null
      ensures p != Null ==>
        && trace == old(trace)
        && allocs == Added(old(allocs), old(nextFreeSlot), Record(p, byteCount, owner, destructor, false, false))
      ensures p == Null ==>
        && trace == old(trace) + (if block == Null then [] else [Freed(block)])
        && allocs == old(allocs)
      ensures bytesAllocatedGross == old(bytesAllocatedGross) + (if p == Null then 0 else byteCount)
        && bytesFreed == old(bytesFreed)
    {
      if block == Null { return Null; }
      var added := Add(block, byteCount, destructor, owner, canGrow);
      if !added {
        trace := trace + [Freed(block)];
        return Null;
      }
      return block;
    }

    /** Reallocates; the table stays valid exactly when the block stays put or owns nothing. */
    method Realloc(oldPointer: Ptr, newByteCount: nat, block: Ptr, canGrow: bool) returns (p: Ptr)
      requires Valid() && oldPointer != Context && block != Context
      requires block == oldPointer || !Live(Links(allocs), block)
      modifies this
      ensures oldPointer == Null || !Live(Links(old(allocs)), oldPointer) || block == Null ==>
        Valid() && (p == Null ==> allocs == old(allocs))
      ensures oldPointer == Null ==>
        p == if block.Block? && (canGrow || old(nextFreeSlot) < old(|allocs|)) then block else Null
      ensures oldPointer == Null && p != Null ==>
        allocs == Added(old(allocs), old(nextFreeSlot), Record(p, newByteCount, Context, None, false, false))
      ensures trace == old(trace) + (if oldPointer == Null && p == Null && block != Null then [Freed(block)] else [])
      ensures oldPointer != Null ==> (p == Null <==> !Live(Links(old(allocs)), oldPointer) || block == Null)
      ensures oldPointer != Null && p != Null ==>
        && p == block
        && (exists k: nat ::
              && k < |old(allocs)| && old(allocs)[k].ptr == oldPointer
              && allocs == Moved(old(allocs), k, block, newByteCount)
              && bytesFreed == old(bytesFreed) + old(allocs)[k].bytes)
        && (Valid() <==> block == oldPointer || !HasChild(Links(old(allocs)), oldPointer))
      ensures bytesAllocatedGross == old(bytesAllocatedGross) + (if p == Null then 0 else newByteCount)
      ensures oldPointer == Null || p == Null ==> bytesFreed == old(bytesFreed)
    {
      hide Consistent, SumBytes, LiveCount, Added, HasChild;
      ghost var s := allocs;
      if oldPointer == Null {
        p := Malloc(newByteCount, None, Context, block, canGrow);
        return;
      }
      var id := RecordIdOf(oldPointer);
      if id < 0 {
        assert !Live(Links(s), oldPointer);
        return Null;
      }
      assert LiveSlot(Links(s), id);
      if block == Null { return Null; }
      MovedConsistent(s, id, block, newByteCount);
      SumsAfterUpdate(s, id, s[id].(ptr := block, bytes := newByteCount));
      UpdateStats(1, 1, newByteCount, allocs[id].bytes);
      allocs := allocs[id := allocs[id].(ptr := block, bytes := newByteCount)];
      assert allocs == Moved(s, id, block, newByteCount);
      assert s[id].ptr == oldPointer;
      return block;
    }

    method SetDestructor(thing: Ptr, destructor: Option<nat>) returns (status: Status)
      requires Valid()
      modifies `allocs
      ensures Valid()
      ensures status ==
        if thing == Null then InvalidArgument
        else if Live(Links(old(allocs)), thing) then Done
        else ItemDoesNotExist
      ensures |allocs| == |old(allocs)| && forall i :: 0 <= i < |allocs| ==>
        allocs[i] ==
        if thing != Null && old(allocs)[i].ptr == thing then old(allocs)[i].(destructor := destructor)
        else old(allocs)[i]
    {
      if thing == Null { return InvalidArgument; }
      ghost var s := allocs;
      for i := 0 to |allocs|
        invariant allocs == s && forall j :: 0 <= j < i ==> allocs[j].ptr != thing
      {
        if allocs[i].ptr == thing {
          allocs := allocs[i := allocs[i].(destructor := destructor)];
          assert LiveSlot(Links(s), i) && Links(s) == Links(allocs);
          SumsAfterUpdate(s, i, allocs[i]);
          assert allocs == s[i := allocs[i]];
          return Done;
        }
      }
      return ItemDoesNotExist;
    }

    /** Hands thing to another owner; the table stays valid exactly when that owner may take it over. */
    method SetOwner(thing: Ptr, owner: Ptr) returns (status: Status)
      requires Valid()
      modifies `allocs
      ensures status ==
        if thing == Null then InvalidArgument
        else if Live(Links(old(allocs)), thing) then Done
        else ItemDoesNotExist
      ensures status != Done ==> allocs == old(allocs) && Valid()
      ensures status == Done ==>
        exists t: nat ::
          && t < |old(allocs)| && old(allocs)[t].ptr == thing
          && allocs == Reowned(old(allocs), t, owner)
          && (Valid() <==> MayTakeOver(old(allocs), t, owner))
    {
      if thing == Null { return InvalidArgument; }
      ghost var s := allocs;
      for i := 0 to |allocs|
        invariant allocs == s && forall j :: 0 <= j < i ==> allocs[j].ptr != thing
      {
        if allocs[i].ptr == thing {
          allocs := allocs[i := allocs[i].(owner := owner)];
          assert LiveSlot(Links(s), i) && s[i].ptr == thing;
          assert allocs == Reowned(s, i, owner);
          SumsAfterUpdate(s, i, allocs[i]);
          ReownedConsistent(s, i, owner);
          return Done;
        }
      }
      return ItemDoesNotExist;
    }

    // ---------- teardown ----------

    method CallDestructor(k: nat) returns (ok: bool)
      requires k < |allocs|
      modifies `allocs, `trace
      ensures allocs == old(allocs)[k := Called(old(allocs[k]))]
      ensures trace == old(trace) + RunOf(old(allocs[k]))
      ensures ok == AllSucceed(outcome, old(allocs), [k])
    {
      var r := allocs[k];
      ghost var s := allocs;
      assert [k][0] == k;
      if r.destructor.Some? && r.ptr != Null && !r.destructorCalled {
        allocs := allocs[k := r.(destructorCalled := true)];
        trace := trace + [Destructed(r.ptr)];
        ok := outcome(r.destructor.value, r.ptr);
      } else {
        ok := true;
        assert s == s[k := Called(r)];
      }
    }

    /** Runs the destructors of everything owner transitively owns, each object after all it owns. */
    method CallDestructorsRecursive(owner: Ptr) returns (success: bool)
      requires Consistent(allocs)
      modifies `allocs, `trace
      ensures allocs == MarkCalled(old(allocs), DoomedBy(old(allocs), owner))
      ensures trace == old(trace) + Destructions(old(allocs), DoomedBy(old(allocs), owner))
      ensures success == AllSucceed(outcome, old(allocs), DoomedBy(old(allocs), owner))
      decreases Subtree(Links(allocs), owner)
    {
      hide *;
      ghost var s := allocs;
      ghost var done: seq<int> := [];
      success := true;
      LoopStart(outcome, s, owner);
      for i := 0 to |allocs|
        invariant |allocs| == |s| && DoneBefore(s, owner, i, done) && Slots(s, done)
        invariant allocs == MarkCalled(s, done)
        invariant trace == old(trace) + Destructions(s, done)
        invariant success == AllSucceed(outcome, s, done)
      {
        LoopReads(s, owner, i, done);
        if allocs[i].ptr != Null && allocs[i].owner == owner {
          ghost var t, before := allocs, trace;
          LoopChild(s, owner, i, done);
          MarkStep(outcome, s, done, i);
          if allocs[i].isOwner {
            var ok := CallDestructorsRecursive(allocs[i].ptr);
            if !ok { success := false; }
          }
          assert allocs == MarkedBelow(s, done, i) && trace == before + Destructions(t, DoomedBy(s, s[i].ptr));
          var ok := CallDestructor(i);
          if !ok { success := false; }
          done := done + Doomed(s, i);
        } else {
          LoopSkip(s, owner, i, done);
        }
      }
      LoopEnd(s, owner, done);
    }

    /** The first half of destroying slot k: every destructor below it, then its own. */
    method RunDestructors(k: nat) returns (success: bool)
      requires k < |allocs| && allocs[k].ptr != Null && Consistent(allocs)
      modifies `allocs, `trace
      ensures allocs == MarkCalled(old(allocs), Doomed(old(allocs), k))
      ensures trace == old(trace) + Destructions(old(allocs), Doomed(old(allocs), k))
      ensures success == AllSucceed(outcome, old(allocs), Doomed(old(allocs), k))
    {
      hide *;
      ghost var s := allocs;
      DestroyPhases(outcome, s, k);
      MarkStep(outcome, s, [], k);
      success := true;
      if allocs[k].isOwner {
        var ok := CallDestructorsRecursive(allocs[k].ptr);
        if !ok { success := false; }
      }
      assert allocs == MarkedBelow(s, [], k) && trace == old(trace) + Destructions(s, DoomedBy(s, s[k].ptr));
      var ok := CallDestructor(k);
      if !ok { success := false; }
      assert Destructions(s, Doomed(s, k)) == Destructions(s, DoomedBy(s, s[k].ptr)) + RunOf(s[k]);
    }

    /** Frees the block of slot k and empties the record. */
    method FreeRecord(k: nat)
      requires k < |allocs| && allocs[k].ptr != Null && StatsMatch(allocs)
      modifies this
      ensures allocs == old(allocs)[k := Cleared(old(allocs)[k])] && trace == old(trace) + [Freed(old(allocs)[k].ptr)]
      ensures StatsMatch(allocs) && bytesAllocatedGross == old(bytesAllocatedGross) && nextFreeSlot == old(nextFreeSlot)
    {
      SumsAfterUpdate(allocs, k, Cleared(allocs[k]));
      trace := trace + [Freed(allocs[k].ptr)];
      UpdateStats(0, 1, 0, allocs[k].bytes);
      allocs := allocs[k := allocs[k].(bytes := 0, ptr := Null, destructor := None, owner := Null)];
    }

    /** Destroys the object in slot k with all it owns: first every destructor, then every free. The caller
        still has to offer slot k for reuse. */
    method PartialDestroyByRecord(k: nat) returns (success: bool)
      requires k < |allocs| && allocs[k].ptr != Null
      requires Consistent(allocs) && StatsMatch(allocs) && LeastUnused(allocs, nextFreeSlot)
      modifies this
      ensures allocs == Removed(old(allocs), Doomed(old(allocs), k))
      ensures trace == old(trace) + Destructions(old(allocs), Doomed(old(allocs), k))
                                  + Frees(old(allocs), Doomed(old(allocs), k))
      ensures success == AllSucceed(outcome, old(allocs), Doomed(old(allocs), k))
      ensures Consistent(allocs) && StatsMatch(allocs) && bytesAllocatedGross == old(bytesAllocatedGross)
      ensures LeastUnused(allocs[k := old(allocs)[k]], nextFreeSlot)
      decreases Subtree(Links(allocs), allocs[k].ptr), 1
    {
      hide *;
      ghost var s := allocs;
      DestroyPhases(outcome, s, k);
      MarkCalledKeeps(s, Doomed(s, k));
      FreesAfterDestructors(outcome, s, k);
      LastCleared(s, k);
      success := RunDestructors(k);
      StatsCarryOver(s, allocs);
      ghost var before := trace;
      if allocs[k].isOwner {
        var ok := DestroyByOwner(allocs[k].ptr);
        if !ok { success := false; }
      }
      assert trace == before + TeardownEvents(MarkCalled(s, Doomed(s, k)), s[k].ptr, 0);
      FreeRecord(k);
    }

    /** Destroys everything owner owns, one directly owned object after the other. */
    method DestroyByOwner(owner: Ptr) returns (success: bool)
      requires Consistent(allocs) && StatsMatch(allocs) && LeastUnused(allocs, nextFreeSlot)
      modifies this
      ensures allocs == Removed(old(allocs), DoomedBy(old(allocs), owner))
      ensures trace == old(trace) + TeardownEvents(old(allocs), owner, 0)
      ensures success == AllSucceed(outcome, old(allocs), DoomedBy(old(allocs), owner))
      ensures Consistent(allocs) && StatsMatch(allocs) && bytesAllocatedGross == old(bytesAllocatedGross)
      ensures LeastUnused(allocs, nextFreeSlot) && (AllPending(old(allocs)) ==> AllPending(allocs))
      decreases Subtree(Links(allocs), owner), 0
    {
      hide *;
      ghost var s := allocs;
      ghost var done: seq<int> := [];
      success := true;
      LoopStart(outcome, s, owner);
      for i := 0 to |allocs|
        invariant |allocs| == |s| && DoneBefore(s, owner, i, done) && Slots(s, done)
        invariant allocs == Removed(s, done)
        invariant trace + TeardownEvents(s, owner, i) == old(trace) + TeardownEvents(s, owner, 0)
        invariant success == AllSucceed(outcome, s, done)
        invariant Consistent(allocs) && StatsMatch(allocs) && bytesAllocatedGross == old(bytesAllocatedGross)
        invariant LeastUnused(allocs, nextFreeSlot)
      {
        LoopReads(s, owner, i, done);
        if allocs[i].ptr != Null && allocs[i].owner == owner {
          LoopChild(s, owner, i, done);
          RemoveStep(outcome, s, done, i);
          ghost var before := trace;
          var ok := PartialDestroyByRecord(i);
          if !ok { success := false; }
          OfferSlot(allocs, i, nextFreeSlot, s[i]);
          if nextFreeSlot > i { nextFreeSlot := i; }
          done := done + Doomed(s, i);
        } else {
          LoopSkip(s, owner, i, done);
        }
      }
      LoopEnd(s, owner, done);
      PendingLeft(s, done);
    }

    /** Destroys one object with all it owns. The context itself is torn down by BeginTerminate. */
    method Destroy(pointer: Ptr) returns (success: bool)
      requires Valid() && pointer != Context
      modifies this
      ensures Valid()
      ensures pointer == Null || !Live(Links(old(allocs)), pointer) ==>
        success == (pointer == Null) && allocs == old(allocs) && trace == old(trace)
      ensures pointer != Null && Live(Links(old(allocs)), pointer) ==>
        exists k: nat ::
          && k < |old(allocs)| && old(allocs)[k].ptr == pointer
          && allocs == Removed(old(allocs), Doomed(old(allocs), k))
          && trace == old(trace) + Destructions(old(allocs), Doomed(old(allocs), k))
            + Frees(old(allocs), Doomed(old(allocs), k))
          && success == AllSucceed(outcome, old(allocs), Doomed(old(allocs), k))
      ensures bytesAllocatedGross == old(bytesAllocatedGross)
    {
      if pointer == Null { return true; }
      ghost var s := allocs;
      var id := RecordIdOf(pointer);
      if id < 0 {
        assert !Live(Links(s), pointer);
        return false;
      }
      OwnSlotIsDoomed(s, id);
      PendingLeft(s, Doomed(s, id));
      hide Consistent, AllPending, LeastUnused, Doomed, Destructions, Frees, AllSucceed, SumBytes, LiveCount;
      success := PartialDestroyByRecord(id);
      OfferSlot(allocs, id, nextFreeSlot, s[id]);
      if nextFreeSlot > id { nextFreeSlot := id; }
      assert s[id].ptr == pointer;
    }

    /** The beginning of a context's termination: destroys everything the context owns. */
    method BeginTerminate() returns (success: bool)
      requires Valid()
      modifies this
      ensures Valid()
      ensures allocs == Removed(old(allocs), DoomedBy(old(allocs), Context))
      ensures trace == old(trace) + TeardownEvents(old(allocs), Context, 0)
      ensures success == AllSucceed(outcome, old(allocs), DoomedBy(old(allocs), Context))
      ensures bytesAllocatedGross == old(bytesAllocatedGross)
    {
      success := DestroyByOwner(Context);
    }
  }
}
