// The record table of the context's object tracker as a value, and what
// destructor runs, removals and additions do to it.

module RecordTable {
  import opened Options
  import opened OwnershipForest

  /** One table entry; an empty entry has a null ptr. Destructors are named by number. */
  datatype Record = Record(ptr: Ptr, bytes: nat, owner: Ptr, destructor: Option<nat>,
                           destructorCalled: bool, isOwner: bool)

  const UNUSED_RECORD := Record(Null, 0, Null, None, false, false)

  /** What the outside world sees of a teardown. */
  datatype Event = Destructed(obj: Ptr) | Freed(block: Ptr)

  function Links(s: seq<Record>): (f: seq<Link>)
    ensures |f| == |s| && forall i :: 0 <= i < |s| ==> f[i] == Link(s[i].ptr, s[i].owner)
  {
    seq(|s|, i requires 0 <= i < |s| => Link(s[i].ptr, s[i].owner))
  }

  function SumBytes(s: seq<Record>): nat {
    if s == [] then 0 else s[0].bytes + SumBytes(s[1..])
  }

  function LiveCount(s: seq<Record>): nat {
    if s == [] then 0 else (if s[0].ptr != Null then 1 else 0) + LiveCount(s[1..])
  }

  /** The destructor of this record is still to be run. */
  predicate Runnable(r: Record) {
    r.destructor.Some? && r.ptr != Null && !r.destructorCalled
  }

  function Called(r: Record): Record {
    if Runnable(r) then r.(destructorCalled := true) else r
  }

  function Cleared(r: Record): Record {
    r.(bytes := 0, ptr := Null, destructor := None, owner := Null)
  }

  /** The table after the destructors of the listed slots were run. */
  function MarkCalled(s: seq<Record>, order: seq<int>): (t: seq<Record>)
    ensures |t| == |s| && forall i :: 0 <= i < |s| ==> t[i] == if i in order then Called(s[i]) else s[i]
    ensures Links(t) == Links(s)
  {
    seq(|s|, i requires 0 <= i < |s| => if i in order then Called(s[i]) else s[i])
  }

  /** The table after the listed slots were destroyed. */
  function Removed(s: seq<Record>, order: seq<int>): (t: seq<Record>)
    ensures |t| == |s| && forall i :: 0 <= i < |s| ==> t[i] == if i in order then Cleared(Called(s[i])) else s[i]
  {
    seq(|s|, i requires 0 <= i < |s| => if i in order then Cleared(Called(s[i])) else s[i])
  }

  ghost predicate Slots(s: seq<Record>, order: seq<int>) {
    forall x :: 0 <= x < |order| ==> 0 <= order[x] < |s|
  }

  function RunOf(r: Record): seq<Event> {
    if Runnable(r) then [Destructed(r.ptr)] else []
  }

  /** The destructor runs for the listed slots, in that order. */
  function Destructions(s: seq<Record>, order: seq<int>): (events: seq<Event>)
    requires Slots(s, order)
  {
    if order == [] then []
    else RunOf(s[order[0]]) + Destructions(s, order[1..])
  }

  /** The frees of the listed slots, in that order. */
  function Frees(s: seq<Record>, order: seq<int>): (events: seq<Event>)
    requires Slots(s, order)
    ensures |events| == |order| && forall x :: 0 <= x < |order| ==> events[x] == Freed(s[order[x]].ptr)
  {
    seq(|order|, x requires 0 <= x < |order| => Freed(s[order[x]].ptr))
  }

  /** The slots destroyed along with slot k, in order. */
  ghost function Doomed(s: seq<Record>, k: nat): (order: seq<int>)
    requires Forest(Links(s)) && k < |s|
    ensures Slots(s, order)
  {
    OrderIsSlots(s, s[k].ptr, 0);
    PostOrder(Links(s), s[k].ptr, 0) + [k]
  }

  /** The slots destroyed when everything p owns is. */
  ghost function DoomedBy(s: seq<Record>, p: Ptr): (order: seq<int>)
    requires Forest(Links(s))
    ensures Slots(s, order)
  {
    OrderIsSlots(s, p, 0);
    PostOrder(Links(s), p, 0)
  }

  /** What destroying the objects owned by p from slot k on looks like: one object after the other,
      for each all destructors and then all frees. */
  ghost function TeardownEvents(s: seq<Record>, p: Ptr, k: nat): seq<Event>
    requires Forest(Links(s)) && k <= |s|
    decreases |s| - k
  {
    if k == |s| then []
    else if s[k].ptr != Null && s[k].owner == p then
      Destructions(s, Doomed(s, k)) + Frees(s, Doomed(s, k)) + TeardownEvents(s, p, k + 1)
    else TeardownEvents(s, p, k + 1)
  }

  ghost predicate FlagSound(s: seq<Record>) {
    forall i, j :: LiveSlot(Links(s), i) && LiveSlot(Links(s), j) && s[i].owner == s[j].ptr ==> s[j].isOwner
  }

  ghost predicate UnusedIsEmpty(s: seq<Record>) {
    forall i :: 0 <= i < |s| && s[i].ptr == Null ==> s[i].bytes == 0
  }

  /** What holds of the table at all times, also in the middle of a teardown. */
  ghost predicate Consistent(s: seq<Record>) {
    Forest(Links(s)) && OwnersLive(Links(s)) && FlagSound(s) && UnusedIsEmpty(s)
  }

  /** No live object's destructor was run yet. */
  ghost predicate AllPending(s: seq<Record>) {
    forall i :: 0 <= i < |s| && s[i].ptr != Null ==> !s[i].destructorCalled
  }

  /** next is the least unused slot, or the table is full and next is its size. */
  ghost predicate LeastUnused(s: seq<Record>, next: nat) {
    && next <= |s|
    && (forall i :: 0 <= i < next ==> s[i].ptr != Null)
    && (next < |s| ==> s[next].ptr == Null)
  }

  // ---------- sums over the table ----------

  lemma {:induction false} SumsAfterUpdate(s: seq<Record>, k: nat, r: Record)
    requires k < |s|
    ensures SumBytes(s[k := r]) == SumBytes(s) - s[k].bytes + r.bytes
    ensures LiveCount(s[k := r]) ==
      LiveCount(s) - (if s[k].ptr != Null then 1 else 0) + (if r.ptr != Null then 1 else 0)
    ensures SumBytes(s) >= s[k].bytes
  {
    if k > 0 {
      SumsAfterUpdate(s[1..], k - 1, r);
      assert s[k := r][1..] == s[1..][k - 1 := r];
    } else {
      assert s[k := r][1..] == s[1..];
    }
  }

  lemma {:induction false} SumsAfterGrowth(s: seq<Record>, t: seq<Record>)
    requires |s| <= |t| && t[..|s|] == s && forall i :: |s| <= i < |t| ==> t[i] == UNUSED_RECORD
    ensures SumBytes(t) == SumBytes(s) && LiveCount(t) == LiveCount(s)
    decreases |t|
  {
    if s != [] {
      assert t[1..][..|s| - 1] == s[1..];
      SumsAfterGrowth(s[1..], t[1..]);
    } else if t != [] {
      SumsAfterGrowth([], t[1..]);
    }
  }

  // ---------- orders as slots of the table ----------

  lemma {:induction false} OrderIsSlots(s: seq<Record>, p: Ptr, k: nat)
    requires Forest(Links(s)) && k <= |s|
    ensures Slots(s, PostOrder(Links(s), p, k))
    ensures forall i :: i in PostOrder(Links(s), p, k) ==> LiveSlot(Links(s), i)
  {
    var order := PostOrder(Links(s), p, k);
    forall i | i in order ensures LiveSlot(Links(s), i) { PostOrderFrom(Links(s), p, k, i); }
    forall x | 0 <= x < |order| ensures 0 <= order[x] < |s| { assert order[x] in order; }
  }

  /** A slot is not among what its own object owns. */
  lemma {:induction false} NotInOwnSubtree(s: seq<Record>, k: nat)
    requires Forest(Links(s)) && k < |s| && s[k].ptr != Null
    ensures k !in DoomedBy(s, s[k].ptr)
  {
    PostOrderIsSubtree(Links(s), s[k].ptr, k);
  }

  lemma {:induction false} DestructionsConcat(s: seq<Record>, a: seq<int>, b: seq<int>)
    requires Slots(s, a) && Slots(s, b)
    ensures Destructions(s, a + b) == Destructions(s, a) + Destructions(s, b)
  {
    if a == [] {
      assert a + b == b;
    } else {
      assert (a + b)[1..] == a[1..] + b;
      DestructionsConcat(s, a[1..], b);
    }
  }

  lemma {:induction false} DestructionsAgree(s: seq<Record>, t: seq<Record>, order: seq<int>)
    requires Slots(s, order) && |s| == |t| && forall x :: 0 <= x < |order| ==> s[order[x]] == t[order[x]]
    ensures Destructions(s, order) == Destructions(t, order)
  {
    if order != [] { DestructionsAgree(s, t, order[1..]); }
  }

  /** Once run, a destructor is never run again. */
  lemma {:induction false} NothingLeftToRun(s: seq<Record>, order: seq<int>)
    requires NoneRunnable(s, order)
    ensures Destructions(s, order) == []
  {
    if order != [] { NothingLeftToRun(s, order[1..]); }
  }

  ghost predicate NoneRunnable(s: seq<Record>, order: seq<int>) {
    Slots(s, order) && forall x :: 0 <= x < |order| ==> !Runnable(s[order[x]])
  }

  lemma {:induction false} SplitOrder(s: seq<Record>, a: seq<int>, b: seq<int>)
    requires NoneRunnable(s, a + b)
    ensures NoneRunnable(s, a) && NoneRunnable(s, b)
    ensures Frees(s, a + b) == Frees(s, a) + Frees(s, b)
  {
    assert forall x :: 0 <= x < |a| ==> (a + b)[x] == a[x];
    assert forall x :: 0 <= x < |b| ==> (a + b)[|a| + x] == b[x];
  }

  lemma {:induction false} QuietTeardownStep(s: seq<Record>, p: Ptr, k: nat)
    requires Forest(Links(s)) && k < |s| && s[k].ptr != Null && s[k].owner == p
    requires NoneRunnable(s, Doomed(s, k))
    ensures TeardownEvents(s, p, k) == Frees(s, Doomed(s, k)) + TeardownEvents(s, p, k + 1)
  {
    hide Forest, Doomed, Destructions, Frees, Links, PostOrder, NoneRunnable;
    NothingLeftToRun(s, Doomed(s, k));
  }

  /** With no destructor left to run, a teardown is the frees alone. */
  lemma {:induction false} QuietTeardown(s: seq<Record>, p: Ptr, k: nat)
    requires Forest(Links(s)) && k <= |s|
    requires NoneRunnable(s, PostOrder(Links(s), p, k))
    ensures TeardownEvents(s, p, k) == Frees(s, PostOrder(Links(s), p, k))
    decreases |s| - k
  {
    if k < |s| {
      if s[k].ptr != Null && s[k].owner == p {
        var rest := PostOrder(Links(s), p, k + 1);
        assert PostOrder(Links(s), p, k) == Doomed(s, k) + rest;
        SplitOrder(s, Doomed(s, k), rest);
        QuietTeardownStep(s, p, k);
      }
      QuietTeardown(s, p, k + 1);
    }
  }

  /** The destructors of the listed slots that are still to be run all report success. */
  ghost predicate AllSucceed(outcome: (nat, Ptr) -> bool, s: seq<Record>, order: seq<int>)
    requires Slots(s, order)
  {
    forall x :: 0 <= x < |order| && Runnable(s[order[x]]) ==> outcome(s[order[x]].destructor.value, s[order[x]].ptr)
  }

  lemma {:induction false} AllSucceedConcat(outcome: (nat, Ptr) -> bool, s: seq<Record>, a: seq<int>, b: seq<int>)
    requires Slots(s, a) && Slots(s, b)
    ensures Slots(s, a + b)
    ensures AllSucceed(outcome, s, a + b) <==> AllSucceed(outcome, s, a) && AllSucceed(outcome, s, b)
  {
    assert forall x :: 0 <= x < |a| ==> (a + b)[x] == a[x];
    assert forall x :: 0 <= x < |b| ==> (a + b)[|a| + x] == b[x];
  }

  // ---------- one step of the teardown loops ----------

  /** The next child's subtree has nothing in common with the slots done before. */
  lemma {:induction false} NextChildIsFresh(s: seq<Record>, owner: Ptr, k: nat, done: seq<int>)
    requires Forest(Links(s)) && k < |s| && s[k].ptr != Null && s[k].owner == owner && Slots(s, done)
    requires DoomedBy(s, owner) == done + PostOrder(Links(s), owner, k)
    ensures NoRepeats(done + Doomed(s, k))
    ensures DoomedBy(s, owner) == done + Doomed(s, k) + PostOrder(Links(s), owner, k + 1)
  {
    var rest := PostOrder(Links(s), owner, k + 1);
    PostOrderNoRepeats(Links(s), owner, 0);
    var head := done + Doomed(s, k);
    assert DoomedBy(s, owner) == head + rest;
    assert forall x :: 0 <= x < |head| ==> (head + rest)[x] == head[x];
  }

  /** A slot the loop has yet to reach is still as it was if its object is a child. */
  lemma {:induction false} NextChildIsLive(s: seq<Record>, owner: Ptr, k: nat, done: seq<int>)
    requires Forest(Links(s)) && k < |s| && Slots(s, done)
    requires DoomedBy(s, owner) == done + PostOrder(Links(s), owner, k)
    ensures s[k].ptr != Null && s[k].owner == owner ==> k !in done
    ensures Removed(s, done)[k].ptr != Null ==> Removed(s, done)[k] == s[k]
  {
    if s[k].ptr != Null && s[k].owner == owner {
      NextChildIsFresh(s, owner, k, done);
      var head := done + Doomed(s, k);
      assert head[|head| - 1] == k;
      forall x | 0 <= x < |done| ensures done[x] != k { assert head[x] == done[x]; }
    }
  }

  lemma {:induction false} UnflaggedOwnsNothing(s: seq<Record>, k: nat)
    requires Consistent(s) && k < |s| && s[k].ptr != Null
    ensures !s[k].isOwner ==> DoomedBy(s, s[k].ptr) == []
  {
    assert LiveSlot(Links(s), k);
    if !s[k].isOwner { PostOrderOfChildless(Links(s), s[k].ptr, 0); }
  }

  lemma {:induction false} Disjoint(a: seq<int>, b: seq<int>)
    requires NoRepeats(a + b)
    ensures forall i :: i in b ==> i !in a
  {
    forall i, x | i in b && 0 <= x < |a| ensures a[x] != i {
      var y :| 0 <= y < |b| && b[y] == i;
      assert (a + b)[x] == a[x] && (a + b)[|a| + y] == b[y];
    }
  }

  /** The marks set below slot k and then on it, on top of those done before. */
  ghost function MarkedBelow(s: seq<Record>, done: seq<int>, k: nat): seq<Record>
    requires Forest(Links(s)) && k < |s|
  {
    MarkCalled(MarkCalled(s, done), DoomedBy(s, s[k].ptr))
  }

  lemma {:induction false} MarkStepAgrees(s: seq<Record>, done: seq<int>, k: nat)
    requires Forest(Links(s)) && k < |s| && s[k].ptr != Null && Slots(s, done) && NoRepeats(done + Doomed(s, k))
    ensures MarkedBelow(s, done, k)[k] == s[k]
    ensures forall i :: i in DoomedBy(s, s[k].ptr) ==> 0 <= i < |s| && MarkCalled(s, done)[i] == s[i]
    ensures k in Doomed(s, k) && forall i :: i in Doomed(s, k) <==> i == k || i in DoomedBy(s, s[k].ptr)
  {
    Disjoint(done, Doomed(s, k));
    NotInOwnSubtree(s, k);
    assert Doomed(s, k)[|Doomed(s, k)| - 1] == k;
    forall i | i in DoomedBy(s, s[k].ptr) ensures i in Doomed(s, k) && 0 <= i < |s| {}
  }

  lemma {:induction false} MarkStepTable(s: seq<Record>, done: seq<int>, k: nat)
    requires Forest(Links(s)) && k < |s| && s[k].ptr != Null && Slots(s, done) && NoRepeats(done + Doomed(s, k))
    ensures MarkedBelow(s, done, k)[k := Called(MarkedBelow(s, done, k)[k])] == MarkCalled(s, done + Doomed(s, k))
  {
    MarkStepAgrees(s, done, k);
  }

  lemma {:induction false} MarkStepEvents(s: seq<Record>, done: seq<int>, k: nat)
    requires Forest(Links(s)) && k < |s| && s[k].ptr != Null && Slots(s, done) && NoRepeats(done + Doomed(s, k))
    ensures Destructions(s, done) + Destructions(MarkCalled(s, done), DoomedBy(s, s[k].ptr))
      + RunOf(MarkedBelow(s, done, k)[k])
            == Destructions(s, done + Doomed(s, k))
  {
    hide Forest, PostOrder, Links, NoRepeats, Runnable, Called;
    var below := DoomedBy(s, s[k].ptr);
    MarkStepAgrees(s, done, k);
    forall x | 0 <= x < |below| ensures s[below[x]] == MarkCalled(s, done)[below[x]] { assert below[x] in below; }
    DestructionsConcat(s, done, Doomed(s, k));
    DestructionsConcat(s, below, [k]);
    DestructionsAgree(s, MarkCalled(s, done), below);
    assert Destructions(s, [k]) == RunOf(s[k]);
  }

  lemma {:induction false} MarkStepSuccess(outcome: (nat, Ptr) -> bool, s: seq<Record>, done: seq<int>, k: nat)
    requires Forest(Links(s)) && k < |s| && s[k].ptr != Null && Slots(s, done) && NoRepeats(done + Doomed(s, k))
    ensures AllSucceed(outcome, s, done + Doomed(s, k)) <==>
            && AllSucceed(outcome, s, done)
            && AllSucceed(outcome, MarkCalled(s, done), DoomedBy(s, s[k].ptr))
            && AllSucceed(outcome, MarkedBelow(s, done, k), [k])
  {
    var below := DoomedBy(s, s[k].ptr);
    MarkStepAgrees(s, done, k);
    forall x | 0 <= x < |below| ensures s[below[x]] == MarkCalled(s, done)[below[x]] { assert below[x] in below; }
    AllSucceedConcat(outcome, s, done, Doomed(s, k));
    AllSucceedConcat(outcome, s, below, [k]);
  }

  /** Running the destructors below slot k and then its own extends those run before by all the doomed ones. */
  lemma {:induction false} MarkStep(outcome: (nat, Ptr) -> bool, s: seq<Record>, done: seq<int>, k: nat)
    requires Consistent(s) && k < |s| && s[k].ptr != Null && Slots(s, done) && NoRepeats(done + Doomed(s, k))
    ensures Consistent(MarkCalled(s, done)) && DoomedBy(MarkCalled(s, done), s[k].ptr) == DoomedBy(s, s[k].ptr)
    ensures MarkedBelow(s, done, k) == MarkCalled(MarkCalled(s, done), DoomedBy(s, s[k].ptr))
    ensures !s[k].isOwner ==>
      && MarkedBelow(s, done, k) == MarkCalled(s, done)
      && Destructions(MarkCalled(s, done), DoomedBy(s, s[k].ptr)) == []
      && AllSucceed(outcome, MarkCalled(s, done), DoomedBy(s, s[k].ptr))
    ensures MarkedBelow(s, done, k)[k := Called(MarkedBelow(s, done, k)[k])] == MarkCalled(s, done + Doomed(s, k))
    ensures Destructions(s, done) + Destructions(MarkCalled(s, done), DoomedBy(s, s[k].ptr))
      + RunOf(MarkedBelow(s, done, k)[k])
            == Destructions(s, done + Doomed(s, k))
    ensures AllSucceed(outcome, s, done + Doomed(s, k)) <==>
            && AllSucceed(outcome, s, done)
            && AllSucceed(outcome, MarkCalled(s, done), DoomedBy(s, s[k].ptr))
            && AllSucceed(outcome, MarkedBelow(s, done, k), [k])
  {
    MarkStepTable(s, done, k);
    MarkStepEvents(s, done, k);
    MarkStepSuccess(outcome, s, done, k);
    UnflaggedOwnsNothing(s, k);
    MarkCalledKeeps(s, done);
  }

  /** Destroying other slots first leaves an object's record and its subtree as they were. */
  lemma {:induction false} StillDoomed(s: seq<Record>, done: seq<int>, k: nat)
    requires Forest(Links(s)) && k < |s| && s[k].ptr != Null && Slots(s, done) && NoRepeats(done + Doomed(s, k))
    ensures var t := Removed(s, done);
            && Forest(Links(t)) && t[k] == s[k] && Doomed(t, k) == Doomed(s, k)
            && Subtree(Links(t), s[k].ptr) <= Subtree(Links(s), s[k].ptr)
            && k in Doomed(s, k)
            && forall x :: 0 <= x < |Doomed(s, k)| ==> s[Doomed(s, k)[x]] == t[Doomed(s, k)[x]]
  {
    hide Forest, Subtree, PostOrder, Links, NoRepeats, Runnable, Called;
    var t, order := Removed(s, done), Doomed(s, k);
    Disjoint(done, order);
    RemovedIsPruned(s, done);
    PrunedForest(Links(s), Links(t), done);
    PrunedSubtree(Links(s), Links(t), done, s[k].ptr);
    assert order[|order| - 1] == k;
    forall i | i in PostOrder(Links(s), s[k].ptr, 0) ensures i !in done { assert i in order; }
    PrunedPostOrder(Links(s), Links(t), done, s[k].ptr, 0);
    forall x | 0 <= x < |order| ensures s[order[x]] == t[order[x]] { assert order[x] in order; }
  }

  lemma {:induction false} AllSucceedAgree(outcome: (nat, Ptr) -> bool, s: seq<Record>, t: seq<Record>, order: seq<int>)
    requires Slots(s, order) && |s| == |t| && forall x :: 0 <= x < |order| ==> s[order[x]] == t[order[x]]
    ensures AllSucceed(outcome, s, order) <==> AllSucceed(outcome, t, order)
  {}

  /** Removing in two goes is removing at once. */
  lemma {:induction false} RemovedTwice(s: seq<Record>, a: seq<int>, b: seq<int>)
    requires Slots(s, a) && Slots(s, b) && forall x :: 0 <= x < |b| ==> Removed(s, a)[b[x]] == s[b[x]]
    ensures Removed(Removed(s, a), b) == Removed(s, a + b)
  {
    forall i | 0 <= i < |s| ensures Removed(Removed(s, a), b)[i] == Removed(s, a + b)[i] {
      if i in b {
        var x :| 0 <= x < |b| && b[x] == i;
        assert Removed(s, a)[b[x]] == s[b[x]];
      }
    }
  }

  lemma {:induction false} RemovedThere(s: seq<Record>, order: seq<int>, k: nat)
    requires k in order && k < |s|
    ensures Removed(s, order)[k].ptr == Null
  {}

  lemma {:induction false} FreesAgree(s: seq<Record>, t: seq<Record>, order: seq<int>)
    requires Slots(s, order) && |s| == |t| && forall x :: 0 <= x < |order| ==> s[order[x]] == t[order[x]]
    ensures Frees(s, order) == Frees(t, order)
  {}

  /** Destroying a child on the table left by the earlier ones is destroying it on the original. */
  lemma {:induction false} RemoveStep(outcome: (nat, Ptr) -> bool, s: seq<Record>, done: seq<int>, k: nat)
    requires Forest(Links(s)) && k < |s| && s[k].ptr != Null && Slots(s, done) && NoRepeats(done + Doomed(s, k))
    ensures var t := Removed(s, done);
            && Forest(Links(t)) && t[k] == s[k] && Doomed(t, k) == Doomed(s, k)
            && Removed(t, Doomed(s, k))[k].ptr == Null
            && Subtree(Links(t), s[k].ptr) <= Subtree(Links(s), s[k].ptr)
            && Removed(t, Doomed(s, k)) == Removed(s, done + Doomed(s, k))
            && Destructions(t, Doomed(s, k)) == Destructions(s, Doomed(s, k))
            && Frees(t, Doomed(s, k)) == Frees(s, Doomed(s, k))
            && (AllSucceed(outcome, s, done) && AllSucceed(outcome, t, Doomed(s, k))
                <==> AllSucceed(outcome, s, done + Doomed(s, k)))
  {
    hide *;
    var t, order := Removed(s, done), Doomed(s, k);
    StillDoomed(s, done, k);
    RemovedTwice(s, done, order);
    RemovedThere(t, order, k);
    DestructionsAgree(s, t, order);
    FreesAgree(s, t, order);
    AllSucceedConcat(outcome, s, done, order);
    AllSucceedAgree(outcome, s, t, order);
  }

  // ---------- the two teardown loops ----------

  /** A teardown loop over the children of owner has done these slots when it reaches slot k. */
  ghost predicate DoneBefore(s: seq<Record>, owner: Ptr, k: nat, done: seq<int>) {
    Forest(Links(s)) && k <= |s| && Slots(s, done) && DoomedBy(s, owner) == done + PostOrder(Links(s), owner, k)
  }

  lemma {:induction false} LoopStart(outcome: (nat, Ptr) -> bool, s: seq<Record>, owner: Ptr)
    requires Consistent(s)
    ensures Forest(Links(s)) && Slots(s, []) && DoneBefore(s, owner, 0, [])
    ensures MarkCalled(s, []) == s && Removed(s, []) == s && Destructions(s, []) == [] && AllSucceed(outcome, s, [])
  {}

  lemma {:induction false} PendingLeft(s: seq<Record>, order: seq<int>)
    ensures AllPending(s) ==> AllPending(Removed(s, order))
  {}

  lemma {:induction false} LoopEnd(s: seq<Record>, owner: Ptr, done: seq<int>)
    requires DoneBefore(s, owner, |s|, done)
    ensures done == DoomedBy(s, owner) && TeardownEvents(s, owner, |s|) == []
  {}

  lemma {:induction false} LoopSkip(s: seq<Record>, owner: Ptr, k: nat, done: seq<int>)
    requires DoneBefore(s, owner, k, done) && k < |s| && !(s[k].ptr != Null && s[k].owner == owner)
    ensures DoneBefore(s, owner, k + 1, done) && TeardownEvents(s, owner, k) == TeardownEvents(s, owner, k + 1)
  {}

  /** The loop reads the same links in the marked table; in the pruned one it sees only children still there. */
  lemma {:induction false} LoopReads(s: seq<Record>, owner: Ptr, k: nat, done: seq<int>)
    requires DoneBefore(s, owner, k, done) && k < |s|
    ensures var t := MarkCalled(s, done);
            t[k].ptr == s[k].ptr && t[k].owner == s[k].owner && t[k].isOwner == s[k].isOwner
    ensures var t := Removed(s, done);
            t[k].ptr != Null && t[k].owner == owner <==> s[k].ptr != Null && s[k].owner == owner
  {
    NextChildIsLive(s, owner, k, done);
  }

  lemma {:induction false} LoopChild(s: seq<Record>, owner: Ptr, k: nat, done: seq<int>)
    requires DoneBefore(s, owner, k, done) && k < |s| && s[k].ptr != Null && s[k].owner == owner
    ensures NoRepeats(done + Doomed(s, k)) && DoneBefore(s, owner, k + 1, done + Doomed(s, k))
    ensures Slots(s, done + Doomed(s, k))
    ensures Subtree(Links(s), s[k].ptr) < Subtree(Links(s), owner)
    ensures TeardownEvents(s, owner, k) ==
            Destructions(s, Doomed(s, k)) + Frees(s, Doomed(s, k)) + TeardownEvents(s, owner, k + 1)
  {
    NextChildIsFresh(s, owner, k, done);
    SubtreeShrinks(Links(s), k, owner);
    assert Slots(s, done + Doomed(s, k));
  }

  lemma {:induction false} MarkCalledKeepsSums(s: seq<Record>, t: seq<Record>)
    requires |s| == |t| && forall i :: 0 <= i < |s| ==> s[i].ptr == t[i].ptr && s[i].bytes == t[i].bytes
    ensures SumBytes(t) == SumBytes(s) && LiveCount(t) == LiveCount(s)
  {
    if s != [] { MarkCalledKeepsSums(s[1..], t[1..]); }
  }

  /** Running destructors changes no ownership, no size and no slot's use. */
  lemma {:induction false} MarkCalledKeeps(s: seq<Record>, order: seq<int>)
    requires Consistent(s)
    ensures Consistent(MarkCalled(s, order))
    ensures SumBytes(MarkCalled(s, order)) == SumBytes(s) && LiveCount(MarkCalled(s, order)) == LiveCount(s)
    ensures forall next: nat :: LeastUnused(s, next) ==> LeastUnused(MarkCalled(s, order), next)
    ensures forall i :: 0 <= i < |s| ==>
      MarkCalled(s, order)[i] == s[i].(destructorCalled := MarkCalled(s, order)[i].destructorCalled)
  {
    MarkCalledKeepsSums(s, MarkCalled(s, order));
  }

  /** After the destructor phase the objects below slot k are only freed, and nothing is destructed twice. */
  lemma {:induction false} FreesAfterDestructors(outcome: (nat, Ptr) -> bool, s: seq<Record>, k: nat)
    requires Consistent(s) && k < |s| && s[k].ptr != Null
    ensures var t, below := MarkCalled(s, Doomed(s, k)), DoomedBy(s, s[k].ptr);
            && DoomedBy(t, s[k].ptr) == below
            && TeardownEvents(t, s[k].ptr, 0) + [Freed(s[k].ptr)] == Frees(s, Doomed(s, k))
            && AllSucceed(outcome, t, below)
            && (!s[k].isOwner ==> TeardownEvents(t, s[k].ptr, 0) == [] && Removed(t, below) == t)
  {
    var t, below := MarkCalled(s, Doomed(s, k)), DoomedBy(s, s[k].ptr);
    forall x | 0 <= x < |below| ensures !Runnable(t[below[x]]) { assert below[x] in Doomed(s, k); }
    QuietTeardown(t, s[k].ptr, 0);
    UnflaggedOwnsNothing(s, k);
  }

  /** Clearing slot k last completes the removal of everything doomed with it. */
  lemma {:induction false} LastCleared(s: seq<Record>, k: nat)
    requires Consistent(s) && k < |s| && s[k].ptr != Null
    ensures var w := Removed(MarkCalled(s, Doomed(s, k)), DoomedBy(s, s[k].ptr));
            && w[k := Cleared(w[k])] == Removed(s, Doomed(s, k))
            && w[k].ptr == s[k].ptr
            && (forall next: nat :: LeastUnused(w, next) ==> LeastUnused(Removed(s, Doomed(s, k))[k := s[k]], next))
    ensures Consistent(Removed(s, Doomed(s, k)))
  {
    NotInOwnSubtree(s, k);
    assert Doomed(s, k)[|Doomed(s, k)| - 1] == k;
    RemovedKeepsConsistent(s, k);
  }

  /** What destroying slot k needs to know of its two phases. */
  lemma {:induction false} DestroyPhases(outcome: (nat, Ptr) -> bool, s: seq<Record>, k: nat)
    requires Consistent(s) && k < |s| && s[k].ptr != Null
    ensures Forest(Links(s)) && Slots(s, []) && NoRepeats([] + Doomed(s, k)) && [] + Doomed(s, k) == Doomed(s, k)
    ensures Destructions(s, Doomed(s, k)) == Destructions(s, DoomedBy(s, s[k].ptr)) + RunOf(s[k])
    ensures MarkedBelow(s, [], k)[k] == s[k]
    ensures MarkCalled(s, []) == s && Destructions(s, []) == [] && AllSucceed(outcome, s, [])
    ensures var t := MarkCalled(s, Doomed(s, k));
            Consistent(t) && t[k].isOwner == s[k].isOwner && t[k].ptr == s[k].ptr && Links(t) == Links(s)
  {
    LoopStart(outcome, s, s[k].ptr);
    DoomedIsSubtree(s, k);
    assert [] + Doomed(s, k) == Doomed(s, k);
    MarkStepAgrees(s, [], k);
    DestructionsConcat(s, DoomedBy(s, s[k].ptr), [k]);
    assert Destructions(s, [k]) == RunOf(s[k]);
    MarkCalledKeeps(s, Doomed(s, k));
  }

  lemma {:induction false} OwnSlotIsDoomed(s: seq<Record>, k: nat)
    requires Forest(Links(s)) && k < |s|
    ensures k in Doomed(s, k) && Removed(s, Doomed(s, k))[k].ptr == Null
  {
    assert Doomed(s, k)[|Doomed(s, k)| - 1] == k;
  }

  /** The slot cleared becomes the least unused one if it lies before it. */
  lemma {:induction false} OfferSlot(s: seq<Record>, k: nat, next: nat, live: Record)
    requires k < |s| && s[k].ptr == Null && live.ptr != Null && LeastUnused(s[k := live], next)
    ensures LeastUnused(s, if next > k then k else next)
  {
    var t := s[k := live];
    assert forall i :: 0 <= i < |s| && i != k ==> t[i] == s[i];
  }

  // ---------- what removal keeps ----------

  lemma {:induction false} RemovedIsPruned(s: seq<Record>, order: seq<int>)
    ensures Pruned(Links(s), Links(Removed(s, order)), order)
  {}

  lemma {:induction false} RemovedKeepsConsistent(s: seq<Record>, k: nat)
    requires Consistent(s) && k < |s| && s[k].ptr != Null
    ensures Consistent(Removed(s, Doomed(s, k)))
  {
    var f, g := Links(s), Links(Removed(s, Doomed(s, k)));
    PrunedForest(f, g, Doomed(s, k));
    PrunedOwnersLive(f, g, Doomed(s, k), k);
  }

  /** The doomed slots are exactly the object's own and those of what it transitively owns, each once,
      every object after all it owns. */
  lemma {:induction false} DoomedIsSubtree(s: seq<Record>, k: nat)
    requires Forest(Links(s)) && k < |s| && s[k].ptr != Null
    ensures forall i :: i in Doomed(s, k) <==> i == k || Owned(Links(s), i, s[k].ptr)
    ensures NoRepeats(Doomed(s, k)) && OwnedFirst(Links(s), Doomed(s, k))
  {
    var f, below := Links(s), PostOrder(Links(s), s[k].ptr, 0);
    forall i ensures i in below <==> Owned(f, i, s[k].ptr) { PostOrderIsSubtree(f, s[k].ptr, i); }
    PostOrderNoRepeats(f, s[k].ptr, 0);
    NoRepeatsConcat(below, [k]);
    PostOrderOwnedFirst(f, s[k].ptr, 0);
    var order := Doomed(s, k);
    forall x, y | 0 <= x < |order| && 0 <= y < |order| && LiveSlot(f, order[y])
                      && Owned(f, order[x], f[order[y]].ptr)
      ensures x < y
    {
      if x < |below| && y < |below| {
        assert below[x] == order[x] && below[y] == order[y];
      } else if x == |below| {
        if y < x { assert order[y] in below; OwnedTransitive(f, k, order[y], f[k].ptr); }
        assert false;
      }
    }
  }

  // ---------- adding, moving and handing over ----------

  function GrownSize(slots: nat): nat {
    if slots * 2 + 1 < 64 then 64 else slots * 2 + 1
  }

  /** The table with room for one more record at slot next. */
  function Grown(s: seq<Record>, next: nat): (t: seq<Record>)
    requires next <= |s|
    ensures next < |t| && |s| <= |t| && t[..|s|] == s
    ensures forall i :: |s| <= i < |t| ==> t[i] == UNUSED_RECORD
  {
    if next < |s| then s else s + seq(GrownSize(|s|) - |s|, i => UNUSED_RECORD)
  }

  /** The table with the given object marked as an owner; null and the context have no mark. */
  function Flagged(s: seq<Record>, owner: Ptr): (t: seq<Record>)
    ensures |t| == |s| && Links(t) == Links(s)
    ensures forall i :: 0 <= i < |s| ==>
      t[i] == if s[i].ptr == owner && owner.Block? then s[i].(isOwner := true) else s[i]
  {
    seq(|s|, i requires 0 <= i < |s| => if s[i].ptr == owner && owner.Block? then s[i].(isOwner := true) else s[i])
  }

  /** The table with record r in slot next, its owner not marked yet. */
  function Placed(s: seq<Record>, next: nat, r: Record): seq<Record>
    requires next <= |s|
  {
    Grown(s, next)[next := r]
  }

  /** The table after record r was put into its least unused slot. */
  function Added(s: seq<Record>, next: nat, r: Record): (t: seq<Record>)
    requires next <= |s|
  {
    Flagged(Placed(s, next, r), r.owner)
  }

  /** Slot by slot: the new record, the records that were there, unused slots behind them; the mark of an owner is all
      that changes, and only the new record's owner gets it. */
  lemma {:induction false} AddedIs(s: seq<Record>, next: nat, r: Record, i: nat)
    requires next <= |s| && i < |Added(s, next, r)|
    ensures next < |Added(s, next, r)| && |s| <= |Added(s, next, r)|
    ensures var was := if i == next then r else if i < |s| then s[i] else Record(Null, 0, Null, None, false, false);
            && Added(s, next, r)[i].(isOwner := was.isOwner) == was
            && (Added(s, next, r)[i].isOwner <==> was.isOwner || (was.ptr == r.owner && was.ptr.Block?))
  {
    if i != next && i < |s| { assert Grown(s, next)[..|s|][i] == s[i]; }
  }

  lemma {:induction false} FlaggingIsOneUpdate(s: seq<Record>, k: nat, owner: Ptr)
    requires Distinct(Links(s)) && k < |s| && s[k].ptr == owner && owner.Block?
    ensures s[k := s[k].(isOwner := true)] == Flagged(s, owner)
  {
    forall i | 0 <= i < |s| ensures s[i].ptr == owner <==> i == k {
      assert LiveSlot(Links(s), i) <==> s[i].ptr != Null;
      assert LiveSlot(Links(s), k);
    }
  }

  lemma {:induction false} FlagKeepsSums(s: seq<Record>, owner: Ptr)
    ensures SumBytes(Flagged(s, owner)) == SumBytes(s) && LiveCount(Flagged(s, owner)) == LiveCount(s)
  {
    if s != [] {
      FlagKeepsSums(s[1..], owner);
      assert Flagged(s, owner)[1..] == Flagged(s[1..], owner);
    }
  }

  lemma {:induction false} GrownKeepsConsistent(s: seq<Record>, next: nat)
    requires Consistent(s) && next <= |s|
    ensures Consistent(Grown(s, next))
  {
    var f, g := Links(s), Links(Grown(s, next));
    forall i | LiveSlot(g, i) ensures LiveSlot(f, i) && f[i] == g[i] {
      assert Grown(s, next)[..|s|][i] == s[i];
    }
    forall i | LiveSlot(f, i) ensures LiveSlot(g, i) && f[i] == g[i] {
      assert Grown(s, next)[..|s|][i] == s[i];
    }
    forall i | LiveSlot(g, i) ensures !Owned(g, i, g[i].ptr) {
      forall n: nat | OwnedIn(g, i, g[i].ptr, n) ensures false { GrownOwnedIn(f, g, i, g[i].ptr, n); }
    }
    forall i | LiveSlot(g, i) ensures g[i].owner == Null || g[i].owner == Context || Live(g, g[i].owner) {
      assert LiveSlot(f, i);
    }
  }

  lemma {:induction false} GrownOwnedIn(f: seq<Link>, g: seq<Link>, i: int, p: Ptr, n: nat)
    requires forall j :: LiveSlot(g, j) ==> LiveSlot(f, j) && f[j] == g[j]
    requires OwnedIn(g, i, p, n)
    ensures OwnedIn(f, i, p, n)
    decreases n
  {
    if g[i].owner != p {
      var j :| LiveSlot(g, j) && g[j].ptr == g[i].owner && OwnedIn(g, j, p, n - 1);
      GrownOwnedIn(f, g, j, p, n - 1);
    }
  }

  /** Adding a fresh object under a tracked owner keeps the table consistent. */
  lemma {:induction false} AddedKeepsConsistent(s: seq<Record>, next: nat, r: Record)
    requires Consistent(s) && next <= |s| && (next < |s| ==> s[next].ptr == Null)
    requires r.ptr.Block? && !Live(Links(s), r.ptr)
    requires r.owner == Null || r.owner == Context || Live(Links(s), r.owner)
    ensures Consistent(Added(s, next, r))
  {
    GrownKeepsConsistent(s, next);
    var u := Grown(s, next);
    var f, g := Links(u), Links(Added(s, next, r));
    forall i | LiveSlot(f, i) ensures LiveSlot(Links(s), i) && f[i] == Links(s)[i] && i != next {
      assert u[..|s|][i] == s[i];
    }
    forall i | LiveSlot(Links(s), i) ensures LiveSlot(f, i) && f[i] == Links(s)[i] {
      assert u[..|s|][i] == s[i];
    }
    assert forall i :: LiveSlot(g, i) <==> LiveSlot(f, i) || i == next;
    forall i | LiveSlot(g, i) ensures g[i].owner != r.ptr {
      if i != next { assert LiveSlot(f, i) && f[i] == g[i]; }
    }
    LeafKeepsForest(f, g, next);
    forall i | LiveSlot(g, i) ensures g[i].owner == Null || g[i].owner == Context || Live(g, g[i].owner) {
      var o := g[i].owner;
      if o.Block? {
        assert i != next ==> LiveSlot(f, i) && f[i].owner == o;
        var j :| LiveSlot(Links(s), j) && Links(s)[j].ptr == o;
        assert LiveSlot(g, j);
      }
    }
  }

  /** What adding a record needs to know of the table it leaves. */
  lemma {:induction false} AddedFacts(s: seq<Record>, next: nat, r: Record)
    requires Consistent(s) && AllPending(s) && LeastUnused(s, next)
    requires r.ptr.Block? && !Live(Links(s), r.ptr) && !r.destructorCalled
    requires r.owner == Null || r.owner == Context || Live(Links(s), r.owner)
    ensures Consistent(Added(s, next, r)) && AllPending(Added(s, next, r)) && |Added(s, next, r)| == |Grown(s, next)|
    ensures forall i :: 0 <= i <= next ==> Added(s, next, r)[i].ptr != Null
    ensures SumBytes(Added(s, next, r)) == SumBytes(s) + r.bytes
    ensures LiveCount(Added(s, next, r)) == LiveCount(s) + 1
    ensures Grown(s, next)[next].ptr == Null
    ensures forall k: nat :: k < |Placed(s, next, r)| && Placed(s, next, r)[k].ptr == r.owner && r.owner.Block? ==>
      Placed(s, next, r)[k := Placed(s, next, r)[k].(isOwner := true)] == Added(s, next, r)
    ensures !r.owner.Block? ==> Added(s, next, r) == Placed(s, next, r)
  {
    var u, t := Grown(s, next), Placed(s, next, r);
    AddedKeepsConsistent(s, next, r);
    SumsAfterGrowth(s, u);
    SumsAfterUpdate(u, next, r);
    FlagKeepsSums(t, r.owner);
    assert forall i :: 0 <= i < |s| ==> u[i] == u[..|s|][i] == s[i];
    forall k: nat | k < |u| && t[k].ptr == r.owner && r.owner.Block?
      ensures t[k := t[k].(isOwner := true)] == Added(s, next, r)
    {
      assert Distinct(Links(Added(s, next, r))) && Links(Added(s, next, r)) == Links(t);
      FlaggingIsOneUpdate(t, k, r.owner);
    }
  }

  lemma {:induction false} OwnerStaysListed(s: seq<Record>, next: nat, r: Record)
    requires LeastUnused(s, next) && Live(Links(s), r.owner)
    ensures !(forall i :: 0 <= i < |Placed(s, next, r)| ==> Placed(s, next, r)[i].ptr != r.owner)
  {
    var i :| LiveSlot(Links(s), i) && Links(s)[i].ptr == r.owner;
    assert Grown(s, next)[..|s|][i] == s[i];
    assert Placed(s, next, r)[i].ptr == r.owner;
  }

  lemma {:induction false} GrownOnlyIfFull(s: seq<Record>, next: nat)
    requires next < |s|
    ensures Grown(s, next) == s
  {}

  /** The table after the object in slot k was reallocated. */
  function Moved(s: seq<Record>, k: nat, to: Ptr, bytes: nat): (t: seq<Record>)
    requires k < |s|
    ensures |t| == |s| && forall i :: 0 <= i < |s| && i != k ==> t[i] == s[i]
    ensures t[k].ptr == to && t[k].bytes == bytes && t[k].owner == s[k].owner && t[k].destructor == s[k].destructor
    ensures t[k].destructorCalled == s[k].destructorCalled && t[k].isOwner == s[k].isOwner
  {
    s[k := s[k].(ptr := to, bytes := bytes)]
  }

  /** Reallocation keeps the table consistent exactly when the block stays put or owns nothing. */
  lemma {:induction false} MovedConsistent(s: seq<Record>, k: nat, to: Ptr, bytes: nat)
    requires Consistent(s) && k < |s| && s[k].ptr.Block? && to.Block?
    requires to == s[k].ptr || !Live(Links(s), to)
    ensures Consistent(Moved(s, k, to, bytes)) <==> to == s[k].ptr || !HasChild(Links(s), s[k].ptr)
  {
    var f, g := Links(s), Links(Moved(s, k, to, bytes));
    assert forall i :: LiveSlot(f, i) <==> LiveSlot(g, i);
    if to == s[k].ptr {
      assert f == g;
    } else if c :| LiveSlot(f, c) && f[c].owner == s[k].ptr {
      assert c != k by { OwnedUnfold(f, k, f[k].ptr); }
      assert LiveSlot(g, c) && !Live(g, g[c].owner);
    } else {
      forall i | LiveSlot(g, i) ensures g[i].owner != to {
        assert LiveSlot(f, i) && f[i].owner == g[i].owner;
      }
      LeafKeepsForest(f, g, k);
      forall i | LiveSlot(g, i) ensures g[i].owner == Null || g[i].owner == Context || Live(g, g[i].owner) {
        assert LiveSlot(f, i) && f[i].owner == g[i].owner;
        if j :| LiveSlot(f, j) && f[j].ptr == f[i].owner { assert LiveSlot(g, j); }
      }
    }
  }

  function Reowned(s: seq<Record>, t: nat, owner: Ptr): (u: seq<Record>)
    requires t < |s|
    ensures |u| == |s| && forall i :: 0 <= i < |s| && i != t ==> u[i] == s[i]
    ensures u[t].owner == owner && u[t].ptr == s[t].ptr && u[t].bytes == s[t].bytes
    ensures u[t].destructor == s[t].destructor && u[t].destructorCalled == s[t].destructorCalled
      && u[t].isOwner == s[t].isOwner
  {
    s[t := s[t].(owner := owner)]
  }

  /** The new owner is null, the context, or a tracked object that is marked as an owner already
      and does not lie below the object handed over. */
  ghost predicate MayTakeOver(s: seq<Record>, t: nat, owner: Ptr) {
    || owner == Null
    || owner == Context
    || exists w :: LiveSlot(Links(s), w) && s[w].ptr == owner && s[w].isOwner && !Below(Links(s), w, t)
  }

  /** A hand-over does not mark the new owner, so it keeps the table consistent exactly when MayTakeOver. */
  lemma {:induction false} ReownedConsistent(s: seq<Record>, t: nat, owner: Ptr)
    requires Consistent(s) && t < |s| && s[t].ptr != Null
    ensures Consistent(Reowned(s, t, owner)) <==> MayTakeOver(s, t, owner)
  {
    var f, u := Links(s), Reowned(s, t, owner);
    var g := Links(u);
    assert g == Handed(f, t, owner);
    HandedForest(f, t, owner);
    assert forall i :: LiveSlot(f, i) <==> LiveSlot(g, i);
    assert forall i :: LiveSlot(f, i) ==> f[i].ptr == g[i].ptr;
    if Consistent(u) && owner.Block? {
      assert LiveSlot(g, t) && Live(g, owner);
      var w :| LiveSlot(g, w) && g[w].ptr == owner;
      assert LiveSlot(f, w) && u[w].isOwner;
    }
    if MayTakeOver(s, t, owner) {
      forall i | LiveSlot(g, i) ensures g[i].owner == Null || g[i].owner == Context || Live(g, g[i].owner) {
        if g[i].owner.Block? {
          var j :| LiveSlot(f, j) && f[j].ptr == g[i].owner;
          assert LiveSlot(g, j);
        }
      }
    }
  }
}
