// Whole runs of the object tracker: any sequence of calls within the contract,
// from an empty table on.

module TrackerRuns {
  import opened Options
  import opened OwnershipForest
  import opened RecordTable
  import opened TeardownOrder
  import opened ObjectTracker

  datatype Call =
    | Malloc(byteCount: nat, destructor: Option<nat>, owner: Ptr, block: Ptr, canGrow: bool)
    | Realloc(oldPointer: Ptr, newByteCount: nat, block: Ptr, canGrow: bool)
    | SetDestructor(thing: Ptr, destructor: Option<nat>)
    | SetOwner(thing: Ptr, owner: Ptr)
    | Destroy(pointer: Ptr)
    | BeginTerminate

  /** Every destructor run is followed by the free of its object, and that before the destructor of anything at the
      same address runs again. */
  ghost predicate Settled(events: seq<Event>) {
    && (forall x :: 0 <= x < |events| && events[x].Destructed? ==> FreedBetween(events, events[x].obj, x, |events|))
    && (forall x, y :: 0 <= x < y < |events| && events[x].Destructed? && events[y] == events[x] ==>
         FreedBetween(events, events[x].obj, x, y))
  }

  ghost predicate FreedBetween(events: seq<Event>, p: Ptr, x: int, y: int) {
    exists z :: x < z < y && 0 <= z < |events| && events[z] == Freed(p)
  }

  /** Settled traces stay settled one after the other. */
  lemma {:induction false} SettledConcat(a: seq<Event>, b: seq<Event>)
    requires Settled(a) && Settled(b)
    ensures Settled(a + b)
  {
    var all := a + b;
    forall x | 0 <= x < |all| && all[x].Destructed? ensures FreedBetween(all, all[x].obj, x, |all|) {
      if x < |a| { Widened(a, b, all[x].obj, x, |a|); } else { Shifted(a, b, all[x].obj, x - |a|, |b|); }
    }
    forall x, y | 0 <= x < y < |all| && all[x].Destructed? && all[y] == all[x]
      ensures FreedBetween(all, all[x].obj, x, y)
    {
      if y < |a| {
        Widened(a, b, all[x].obj, x, y);
      } else if x < |a| {
        Widened(a, b, all[x].obj, x, |a|);
        var z :| x < z < |a| && 0 <= z < |all| && all[z] == Freed(all[x].obj);
      } else {
        Shifted(a, b, all[x].obj, x - |a|, y - |a|);
      }
    }
  }

  lemma {:induction false} Widened(a: seq<Event>, b: seq<Event>, p: Ptr, x: int, y: int)
    requires FreedBetween(a, p, x, y) && 0 <= x
    ensures exists z :: x < z < y && z < |a| && 0 <= z < |a + b| && (a + b)[z] == Freed(p)
    ensures FreedBetween(a + b, p, x, y)
  {
    var z :| x < z < y && 0 <= z < |a| && a[z] == Freed(p);
    assert (a + b)[z] == Freed(p);
  }

  lemma {:induction false} Shifted(a: seq<Event>, b: seq<Event>, p: Ptr, x: int, y: int)
    requires FreedBetween(b, p, x, y) && 0 <= x
    ensures FreedBetween(a + b, p, x + |a|, y + |a|)
  {
    var z :| x < z < y && 0 <= z < |b| && b[z] == Freed(p);
    assert (a + b)[z + |a|] == Freed(p);
  }

  /** A trace in which nothing happens twice and every destructor run comes before a free of its object is settled. */
  lemma {:induction false} OnceIsSettled(s: seq<Record>, events: seq<Event>, slots: seq<int>)
    requires TearsDown(s, events, slots)
    requires forall a: Event, b: Event :: a in events && b in events && a.Destructed? && b == Freed(a.obj) ==>
      Before(events, a, b)
    ensures Settled(events)
  {
    forall x | 0 <= x < |events| && events[x].Destructed? ensures FreedBetween(events, events[x].obj, x, |events|) {
      assert events[x] in events;
      var i :| LiveSlot(Links(s), i) && (events[x] == Destructed(s[i].ptr) || events[x] == Freed(s[i].ptr));
      assert Destructed(s[i].ptr) in events && i in slots && Freed(s[i].ptr) in events;
      var z :| 0 <= z < |events| && events[z] == Freed(s[i].ptr);
      assert Before(events, events[x], events[z]);
    }
  }

  /** The trace of a destroy is settled. */
  lemma {:induction false} DestroySettled(s: seq<Record>, k: nat)
    requires Consistent(s) && AllPending(s) && k < |s| && s[k].ptr != Null
    ensures Settled(Destructions(s, Doomed(s, k)) + Frees(s, Doomed(s, k)))
  {
    hide TearsDown, OwnersOutlive, Destructions, Frees, Doomed, Before, AllPending;
    DestroyTearsDown(s, k);
    DestroyOwnersOutlive(s, k);
    OnceIsSettled(s, Destructions(s, Doomed(s, k)) + Frees(s, Doomed(s, k)), Doomed(s, k));
  }

  /** So is the trace of destroying everything an owner owns. */
  lemma {:induction false} TeardownSettled(s: seq<Record>, p: Ptr)
    requires Consistent(s) && AllPending(s)
    ensures Settled(TeardownEvents(s, p, 0))
  {
    TeardownIsExact(s, p);
    var events := TeardownEvents(s, p, 0);
    forall a: Event, b: Event | a in events && b in events && a.Destructed? && b == Freed(a.obj)
      ensures Before(events, a, b)
    {
      var i :| LiveSlot(Links(s), i) && (a == Destructed(s[i].ptr) || a == Freed(s[i].ptr));
      assert Below(Links(s), i, i);
    }
    OnceIsSettled(s, events, DoomedBy(s, p));
  }

  lemma {:induction false} NothingSettled(block: Ptr)
    ensures Settled([]) && Settled([Freed(block)])
  {}

  // ---------- the contract, as a caller can check it ----------

  /** Whether an object owns anything. */
  method OwnsNothing(t: Tracker, p: Ptr) returns (b: bool)
    ensures b <==> !HasChild(Links(t.allocs), p)
  {
    for i := 0 to |t.allocs|
      invariant forall j :: 0 <= j < i && t.allocs[j].ptr != Null ==> t.allocs[j].owner != p
    {
      if t.allocs[i].ptr != Null && t.allocs[i].owner == p {
        assert LiveSlot(Links(t.allocs), i);
        return false;
      }
    }
    return true;
  }

  method IsLive(t: Tracker, p: Ptr) returns (b: bool)
    requires p != Null
    ensures b <==> Live(Links(t.allocs), p)
  {
    var id := t.RecordIdOf(p);
    b := id >= 0;
    if b { assert LiveSlot(Links(t.allocs), id); }
  }

  /** A slot is below another exactly when its owner is. */
  lemma {:induction false} ClimbStep(f: seq<Link>, c: int, up: int, t: int)
    requires Forest(f) && LiveSlot(f, c) && LiveSlot(f, t) && c != t
    requires up < 0 ==> forall j :: LiveSlot(f, j) ==> f[j].ptr != f[c].owner
    requires up >= 0 ==> LiveSlot(f, up) && f[up].ptr == f[c].owner
    ensures Below(f, c, t) <==> up >= 0 && Below(f, up, t)
    ensures up >= 0 ==> Subtree(f, f[c].ptr) < Subtree(f, f[up].ptr)
  {
    OwnedUnfold(f, c, f[t].ptr);
    if up >= 0 { SubtreeShrinks(f, c, f[up].ptr); }
  }

  /** What the tracker asks of its callers: fresh blocks, live owners, only childless objects moved, and hand-overs only
      to null, the context or a marked owner that is not below the object. */
  ghost predicate Contract(s: seq<Record>, call: Call) {
    match call
    case Malloc(_, _, owner, block, _) =>
      block != Context && !Live(Links(s), block) && (owner == Null || owner == Context || Live(Links(s), owner))
    case Realloc(oldPointer, _, block, _) =>
      && oldPointer != Context && block != Context && (block == oldPointer || !Live(Links(s), block))
      && (oldPointer == Null || block == oldPointer || !HasChild(Links(s), oldPointer))
    case SetDestructor(_, _) => true
    case SetOwner(thing, owner) =>
      forall t: nat :: t < |s| && s[t].ptr == thing && thing != Null ==> MayTakeOver(s, t, owner)
    case Destroy(pointer) => pointer != Context
    case BeginTerminate => true
  }

  /** One call within the contract. */
  method Perform(t: Tracker, call: Call)
    requires t.Valid() && Contract(t.allocs, call) && Settled(t.trace)
    modifies t
    ensures t.Valid() && Settled(t.trace)
  {
    hide Consistent, AllPending, LeastUnused, Settled, TeardownEvents, Destructions, Frees, Doomed, DoomedBy, Live,
      HasChild, MayTakeOver;
    ghost var s, before := t.allocs, t.trace;
    match call {
      case Malloc(byteCount, destructor, owner, block, canGrow) => {
        var p := t.Malloc(byteCount, destructor, owner, block, canGrow);
        NothingSettled(block);
        SettledConcat(before, [Freed(block)]);
        assert before + [] == before;
      }
      case Realloc(oldPointer, newByteCount, block, canGrow) => {
        var p := t.Realloc(oldPointer, newByteCount, block, canGrow);
        NothingSettled(block);
        SettledConcat(before, [Freed(block)]);
        assert before + [] == before;
      }
      case SetDestructor(thing, destructor) => {
        var status := t.SetDestructor(thing, destructor);
      }
      case SetOwner(thing, owner) => {
        var status := t.SetOwner(thing, owner);
      }
      case Destroy(pointer) => {
        var ok := t.Destroy(pointer);
        if pointer != Null && Live(Links(s), pointer) {
          DestroyedSettled(t, s, before, pointer);
        }
      }
      case BeginTerminate => {
        ValidIs(t);
        TeardownSettled(s, Context);
        SettledConcat(before, TeardownEvents(s, Context, 0));
        var ok := t.BeginTerminate();
      }
    }
  }

  lemma {:induction false} ValidIs(t: Tracker)
    requires t.Valid()
    ensures Consistent(t.allocs) && AllPending(t.allocs)
  {}

  lemma {:induction false} DestroyedSettled(t: Tracker, s: seq<Record>, before: seq<Event>, pointer: Ptr)
    requires Consistent(s) && AllPending(s) && pointer != Null && Settled(before)
    requires exists k: nat ::
      && k < |s| && s[k].ptr == pointer
      && t.trace == before + Destructions(s, Doomed(s, k)) + Frees(s, Doomed(s, k))
    ensures Settled(t.trace)
  {
    hide AllPending, Settled, Destructions, Frees, Doomed;
    var k: nat :| k < |s| && s[k].ptr == pointer
      && t.trace == before + Destructions(s, Doomed(s, k)) + Frees(s, Doomed(s, k));
    DestroySettled(s, k);
    SettledConcat(before, Destructions(s, Doomed(s, k)) + Frees(s, Doomed(s, k)));
    assert t.trace == before + (Destructions(s, Doomed(s, k)) + Frees(s, Doomed(s, k)));
  }

  /** Decides whether a call is within the contract. */
  method Allowed(t: Tracker, call: Call) returns (ok: bool)
    requires t.Valid()
    ensures ok <==> Contract(t.allocs, call)
  {
    match call {
      case Malloc(byteCount, destructor, owner, block, canGrow) => {
        ok := block != Context;
        if ok && block != Null {
          var taken := IsLive(t, block);
          ok := !taken;
        }
        if ok && owner != Null && owner != Context { ok := IsLive(t, owner); }
      }
      case Realloc(oldPointer, newByteCount, block, canGrow) => {
        ok := oldPointer != Context && block != Context;
        if ok && block != oldPointer && block != Null {
          var taken := IsLive(t, block);
          ok := !taken;
        }
        if ok && oldPointer != Null && block != oldPointer { ok := OwnsNothing(t, oldPointer); }
      }
      case SetOwner(thing, owner) => {
        ok := owner == Null || owner == Context || thing == Null;
        if !ok { ok := MarkedAndApart(t, thing, owner); }
      }
      case Destroy(pointer) => { ok := pointer != Context; }
      case _ => { ok := true; }
    }
  }

  /** Climbs the owner links from the new owner and looks out for the object. */
  method MarkedAndApart(t: Tracker, thing: Ptr, owner: Ptr) returns (ok: bool)
    requires t.Valid() && thing != Null && owner.Block?
    ensures ok <==> Contract(t.allocs, SetOwner(thing, owner))
  {
    ghost var f := Links(t.allocs);
    var slot := t.RecordIdOf(thing);
    var w := t.RecordIdOf(owner);
    if slot < 0 { return true; }
    assert LiveSlot(f, slot);
    if w < 0 || !t.allocs[w].isOwner {
      assert w < 0 || LiveSlot(f, w);
      assert !MayTakeOver(t.allocs, slot, owner);
      return false;
    }
    var c := w;
    ghost var all := set i {:trigger f[i]} | 0 <= i < |f|;
    while c >= 0 && c != slot
      invariant -1 <= c < |f| && (c >= 0 ==> LiveSlot(f, c))
      invariant Below(f, w, slot) <==> c >= 0 && Below(f, c, slot)
      decreases c >= 0, if c >= 0 then all - Subtree(f, f[c].ptr) else {}
    {
      var up := -1;
      if t.allocs[c].owner != Null { up := t.RecordIdOf(t.allocs[c].owner); }
      ClimbStep(f, c, up, slot);
      assert up >= 0 ==> Subtree(f, f[up].ptr) <= all;
      c := up;
    }
    ok := c < 0;
    assert LiveSlot(f, w) && (ok <==> MayTakeOver(t.allocs, slot, owner));
  }

  /** In any run of calls within the contract (others are left out) the tracker stays valid (so bytes are conserved,
      the next free slot is the least unused one and owners are live) and no destructor runs twice for one object. */
  method Run(t: Tracker, calls: seq<Call>)
    requires t.Valid() && Settled(t.trace)
    modifies t
    ensures t.Valid() && Settled(t.trace)
  {
    for i := 0 to |calls|
      invariant t.Valid() && Settled(t.trace)
    {
      var ok := Allowed(t, calls[i]);
      if ok { Perform(t, calls[i]); }
    }
  }

  /** A context's whole life: an empty tracker, a run, the termination. What is left is what the context did not own. */
  method Life(outcome: (nat, Ptr) -> bool, calls: seq<Call>) returns (t: Tracker)
    ensures fresh(t) && t.Valid() && Settled(t.trace)
    ensures forall i :: 0 <= i < |t.allocs| && t.allocs[i].ptr != Null ==> !Owned(Links(t.allocs), i, Context)
  {
    t := new Tracker(outcome);
    NothingSettled(Null);
    Run(t, calls);
    ghost var s, before := t.allocs, t.trace;
    TeardownSettled(s, Context);
    SettledConcat(before, TeardownEvents(s, Context, 0));
    TeardownLeavesRest(s, Context);
    var ok := t.BeginTerminate();
  }
}
