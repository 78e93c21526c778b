// What the event traces of a teardown mean: which destructors run and which
// blocks are freed, how often, and in which order.

module TeardownOrder {
  import opened OwnershipForest
  import opened RecordTable

  ghost predicate NoRepeatedEvent(events: seq<Event>) {
    forall x, y :: 0 <= x < y < |events| ==> events[x] != events[y]
  }

  /** Wherever a and b both occur, a comes first. */
  ghost predicate Before(events: seq<Event>, a: Event, b: Event) {
    forall x, y :: 0 <= x < |events| && 0 <= y < |events| && events[x] == a && events[y] == b ==> x < y
  }

  /** Exactly the live objects in the listed slots are torn down: each one's destructor, if it has one, runs
      once, its block is freed once, and nothing else happens. */
  ghost predicate TearsDown(s: seq<Record>, events: seq<Event>, slots: seq<int>) {
    && NoRepeatedEvent(events)
    && (forall i :: LiveSlot(Links(s), i) ==>
         && (Destructed(s[i].ptr) in events <==> i in slots && s[i].destructor.Some?)
         && (Freed(s[i].ptr) in events <==> i in slots))
    && (forall e :: e in events ==>
        exists i :: LiveSlot(Links(s), i) && (e == Destructed(s[i].ptr) || e == Freed(s[i].ptr)))
  }

  /** An owner's destructor runs after the destructors of all it owns and before any of that is freed;
      its own block is freed last. */
  ghost predicate OwnersOutlive(s: seq<Record>, events: seq<Event>) {
    forall i, j :: LiveSlot(Links(s), i) && Below(Links(s), i, j) ==>
      && Before(events, Destructed(s[j].ptr), Freed(s[i].ptr))
      && (i != j ==>
          Before(events, Destructed(s[i].ptr), Destructed(s[j].ptr))
            && Before(events, Freed(s[i].ptr), Freed(s[j].ptr)))
  }

  ghost predicate LiveOrder(s: seq<Record>, order: seq<int>) {
    Slots(s, order) && NoRepeats(order) && forall x :: 0 <= x < |order| ==> s[order[x]].ptr != Null
  }

  lemma {:induction false} DestructionsAre(s: seq<Record>, order: seq<int>)
    requires Distinct(Links(s)) && LiveOrder(s, order)
    ensures NoRepeatedEvent(Destructions(s, order))
    ensures forall i :: LiveSlot(Links(s), i) ==>
      (Destructed(s[i].ptr) in Destructions(s, order) <==> i in order && Runnable(s[i]))
    ensures forall e :: e in Destructions(s, order) ==>
      exists i :: i in order && LiveSlot(Links(s), i) && e == Destructed(s[i].ptr)
  {
    if order != [] {
      var h, rest := order[0], order[1..];
      DestructionsAre(s, rest);
      assert LiveSlot(Links(s), h) && h !in rest;
      assert order == [h] + rest;
    }
  }

  lemma {:induction false} DestructionsOrdered(s: seq<Record>, order: seq<int>, i: int, j: int)
    requires Distinct(Links(s)) && LiveOrder(s, order) && LiveSlot(Links(s), i) && LiveSlot(Links(s), j)
    requires forall x, y :: 0 <= x < |order| && 0 <= y < |order| && order[x] == i && order[y] == j ==> x < y
    ensures Before(Destructions(s, order), Destructed(s[i].ptr), Destructed(s[j].ptr))
  {
    if order != [] {
      var h, rest := order[0], order[1..];
      assert LiveSlot(Links(s), h);
      assert forall y :: 0 <= y < |rest| ==> rest[y] == order[y + 1];
      DestructionsOrdered(s, rest, i, j);
      DestructionsAre(s, rest);
      var a, b := Destructed(s[i].ptr), Destructed(s[j].ptr);
      if b in RunOf(s[h]) {
        assert h == j && i !in rest;
      } else {
        BeforeIfAbsent(RunOf(s[h]), a, b);
      }
      BeforeConcat(RunOf(s[h]), Destructions(s, rest), a, b);
    }
  }

  lemma {:induction false} FreesAre(s: seq<Record>, order: seq<int>)
    requires Distinct(Links(s)) && LiveOrder(s, order)
    ensures NoRepeatedEvent(Frees(s, order))
    ensures forall i :: LiveSlot(Links(s), i) ==> (Freed(s[i].ptr) in Frees(s, order) <==> i in order)
    ensures forall e :: e in Frees(s, order) ==> exists i :: i in order && LiveSlot(Links(s), i) && e == Freed(s[i].ptr)
  {
    var events := Frees(s, order);
    forall i | LiveSlot(Links(s), i) ensures Freed(s[i].ptr) in events <==> i in order {
      if i in order { var x :| 0 <= x < |order| && order[x] == i; assert events[x] == Freed(s[i].ptr); }
      if Freed(s[i].ptr) in events {
        var x :| 0 <= x < |order| && events[x] == Freed(s[i].ptr);
        assert LiveSlot(Links(s), order[x]);
      }
    }
    forall e | e in events ensures exists i :: i in order && LiveSlot(Links(s), i) && e == Freed(s[i].ptr) {
      var x :| 0 <= x < |order| && events[x] == e;
      assert order[x] in order && LiveSlot(Links(s), order[x]);
    }
    forall x, y | 0 <= x < y < |events| ensures events[x] != events[y] {
      assert LiveSlot(Links(s), order[x]) && LiveSlot(Links(s), order[y]);
    }
  }

  lemma {:induction false} BeforeIfAbsent(events: seq<Event>, a: Event, b: Event)
    requires a !in events || b !in events
    ensures Before(events, a, b)
  {}

  lemma {:induction false} BeforeConcat(d: seq<Event>, e: seq<Event>, a: Event, b: Event)
    requires Before(d, a, b) && Before(e, a, b) && (b in d ==> a !in e)
    ensures Before(d + e, a, b)
  {
    var all := d + e;
    forall x, y | 0 <= x < |all| && 0 <= y < |all| && all[x] == a && all[y] == b ensures x < y {
      if x >= |d| {
        assert all[x] in e;
        if y >= |d| { assert e[y - |d|] == b; }
      }
    }
  }

  lemma {:induction false} NoRepeatedConcat(d: seq<Event>, e: seq<Event>)
    requires NoRepeatedEvent(d) && NoRepeatedEvent(e) && forall v :: v in d ==> v !in e
    ensures NoRepeatedEvent(d + e)
  {
    forall x, y | 0 <= x < y < |d + e| ensures (d + e)[x] != (d + e)[y] {
      if x < |d| <= y { assert d[x] in d && e[y - |d|] in e; }
    }
  }

  /** Destroying slot k tears down exactly its object and what that transitively owns. */
  lemma {:induction false} DestroyTearsDown(s: seq<Record>, k: nat)
    requires Consistent(s) && AllPending(s) && k < |s| && s[k].ptr != Null
    ensures TearsDown(s, Destructions(s, Doomed(s, k)) + Frees(s, Doomed(s, k)), Doomed(s, k))
    ensures forall i :: i in Doomed(s, k) <==> i == k || Owned(Links(s), i, s[k].ptr)
    ensures LiveOrder(s, Doomed(s, k)) && OwnedFirst(Links(s), Doomed(s, k))
  {
    var order := Doomed(s, k);
    DoomedIsSubtree(s, k);
    forall x | 0 <= x < |order| ensures s[order[x]].ptr != Null {
      assert order[x] in order;
      if order[x] != k { PostOrderIsSubtree(Links(s), s[k].ptr, order[x]); }
    }
    DestructionsAre(s, order);
    FreesAre(s, order);
    NoRepeatedConcat(Destructions(s, order), Frees(s, order));
  }

  /** All destructors run before any free. */
  lemma {:induction false} DestructorsFirst(s: seq<Record>, order: seq<int>, a: Event, b: Event)
    requires Distinct(Links(s)) && LiveOrder(s, order) && a.Destructed? && b.Freed?
    ensures Before(Destructions(s, order) + Frees(s, order), a, b)
  {
    DestructionsAre(s, order);
    FreesAre(s, order);
    BeforeIfAbsent(Destructions(s, order), a, b);
    BeforeIfAbsent(Frees(s, order), a, b);
    BeforeConcat(Destructions(s, order), Frees(s, order), a, b);
  }

  lemma {:induction false} OwnedBeforeOwner(s: seq<Record>, order: seq<int>, i: int, j: int)
    requires Forest(Links(s)) && LiveOrder(s, order) && OwnedFirst(Links(s), order)
    requires LiveSlot(Links(s), i) && LiveSlot(Links(s), j) && Owned(Links(s), i, s[j].ptr)
    ensures Before(Destructions(s, order) + Frees(s, order), Destructed(s[i].ptr), Destructed(s[j].ptr))
    ensures Before(Destructions(s, order) + Frees(s, order), Freed(s[i].ptr), Freed(s[j].ptr))
  {
    var d, e := Destructions(s, order), Frees(s, order);
    DestructionsAre(s, order);
    FreesAre(s, order);
    DestructionsOrdered(s, order, i, j);
    FreesOrdered(s, order, i, j);
    BeforeIfAbsent(e, Destructed(s[i].ptr), Destructed(s[j].ptr));
    BeforeIfAbsent(d, Freed(s[i].ptr), Freed(s[j].ptr));
    BeforeConcat(d, e, Destructed(s[i].ptr), Destructed(s[j].ptr));
    BeforeConcat(d, e, Freed(s[i].ptr), Freed(s[j].ptr));
  }

  /** In a destroy every owner outlives what it owns, and all destructors run before any free. */
  lemma {:induction false} DestroyOwnersOutlive(s: seq<Record>, k: nat)
    requires Consistent(s) && AllPending(s) && k < |s| && s[k].ptr != Null
    ensures OwnersOutlive(s, Destructions(s, Doomed(s, k)) + Frees(s, Doomed(s, k)))
    ensures forall a: Event, b: Event :: a.Destructed? && b.Freed? ==>
      Before(Destructions(s, Doomed(s, k)) + Frees(s, Doomed(s, k)), a, b)
  {
    DestroyTearsDown(s, k);
    var events := Destructions(s, Doomed(s, k)) + Frees(s, Doomed(s, k));
    forall a: Event, b: Event | a.Destructed? && b.Freed? ensures Before(events, a, b) {
      DestructorsFirst(s, Doomed(s, k), a, b);
    }
    forall i, j | LiveSlot(Links(s), i) && Below(Links(s), i, j) && i != j
      ensures Before(events, Destructed(s[i].ptr), Destructed(s[j].ptr))
        && Before(events, Freed(s[i].ptr), Freed(s[j].ptr))
    {
      OwnedBeforeOwner(s, Doomed(s, k), i, j);
    }
  }

  lemma {:induction false} FreesOrdered(s: seq<Record>, order: seq<int>, i: int, j: int)
    requires Forest(Links(s)) && LiveOrder(s, order) && OwnedFirst(Links(s), order)
    requires LiveSlot(Links(s), i) && LiveSlot(Links(s), j) && Owned(Links(s), i, s[j].ptr)
    ensures Before(Frees(s, order), Freed(s[i].ptr), Freed(s[j].ptr))
  {
    var events := Frees(s, order);
    forall x, y | 0 <= x < |events| && 0 <= y < |events| && events[x] == Freed(s[i].ptr) && events[y] == Freed(s[j].ptr)
      ensures x < y
    {
      assert LiveSlot(Links(s), order[x]) && LiveSlot(Links(s), order[y]);
    }
  }

  // ---------- destroying everything one owner owns ----------

  /** Before child k the loop has reached, its subtree's slots are not yet torn down by later children. */
  lemma {:induction false} TeardownFrom(s: seq<Record>, p: Ptr, k: nat)
    requires Consistent(s) && AllPending(s) && k <= |s|
    ensures TearsDown(s, TeardownEvents(s, p, k), PostOrder(Links(s), p, k))
    ensures OwnersOutlive(s, TeardownEvents(s, p, k))
    decreases |s| - k
  {
    if k < |s| {
      TeardownFrom(s, p, k + 1);
      if s[k].ptr != Null && s[k].owner == p {
        TeardownChild(s, p, k);
      }
    }
  }

  /** A later child's subtree has no slot in common with child k's, and neither owns into the other. */
  lemma {:induction false} LaterChildrenApart(s: seq<Record>, p: Ptr, k: nat, i: int, j: int)
    requires Consistent(s) && k < |s| && s[k].ptr != Null && s[k].owner == p
    requires LiveSlot(Links(s), i) && Below(Links(s), i, j)
    ensures i in Doomed(s, k) ==> j !in PostOrder(Links(s), p, k + 1) && i !in PostOrder(Links(s), p, k + 1)
    ensures j in Doomed(s, k) ==> i !in PostOrder(Links(s), p, k + 1)
  {
    var f := Links(s);
    DoomedIsSubtree(s, k);
    PostOrderFrom(f, p, k + 1, i);
    PostOrderFrom(f, p, k + 1, j);
    if j in Doomed(s, k) && i != j && j != k { OwnedTransitive(f, i, j, f[k].ptr); }
    if i in Doomed(s, k) {
      assert Below(f, i, k);
      forall c | k + 1 <= c && (Below(f, i, c) || Below(f, j, c)) && f[c].owner == p ensures false {
        if Below(f, j, c) && i != j && j != c { OwnedTransitive(f, i, j, f[c].ptr); }
        assert Below(f, i, c);
        SiblingsDisjoint(f, i, k, c);
      }
    }
  }

  lemma {:induction false} TeardownChild(s: seq<Record>, p: Ptr, k: nat)
    requires Consistent(s) && AllPending(s) && k < |s| && s[k].ptr != Null && s[k].owner == p
    requires TearsDown(s, TeardownEvents(s, p, k + 1), PostOrder(Links(s), p, k + 1))
    requires OwnersOutlive(s, TeardownEvents(s, p, k + 1))
    ensures TearsDown(s, TeardownEvents(s, p, k), PostOrder(Links(s), p, k))
    ensures OwnersOutlive(s, TeardownEvents(s, p, k))
  {
    var f, order, rest := Links(s), Doomed(s, k), PostOrder(Links(s), p, k + 1);
    var d, e := Destructions(s, order) + Frees(s, order), TeardownEvents(s, p, k + 1);
    assert PostOrder(f, p, k) == order + rest && TeardownEvents(s, p, k) == d + e;
    DestroyTearsDown(s, k);
    DestroyOwnersOutlive(s, k);
    JoinTearsDown(s, p, k, d, e);
    forall i, j | LiveSlot(f, i) && Below(f, i, j)
      ensures Before(d + e, Destructed(s[j].ptr), Freed(s[i].ptr))
      ensures i != j ==>
        Before(d + e, Destructed(s[i].ptr), Destructed(s[j].ptr)) && Before(d + e, Freed(s[i].ptr), Freed(s[j].ptr))
    {
      LaterChildrenApart(s, p, k, i, j);
      assert LiveSlot(f, j);
      BeforeConcat(d, e, Destructed(s[j].ptr), Freed(s[i].ptr));
      if i != j {
        BeforeConcat(d, e, Destructed(s[i].ptr), Destructed(s[j].ptr));
        BeforeConcat(d, e, Freed(s[i].ptr), Freed(s[j].ptr));
      }
    }
  }

  lemma {:induction false} JoinTearsDown(s: seq<Record>, p: Ptr, k: nat, d: seq<Event>, e: seq<Event>)
    requires Consistent(s) && k < |s| && s[k].ptr != Null && s[k].owner == p
    requires TearsDown(s, d, Doomed(s, k)) && TearsDown(s, e, PostOrder(Links(s), p, k + 1))
    ensures TearsDown(s, d + e, Doomed(s, k) + PostOrder(Links(s), p, k + 1))
  {
    var f := Links(s);
    forall v | v in d ensures v !in e {
      var i :| LiveSlot(f, i) && (v == Destructed(s[i].ptr) || v == Freed(s[i].ptr));
      LaterChildrenApart(s, p, k, i, i);
    }
    NoRepeatedConcat(d, e);
  }

  /** Destroying what p owns tears down exactly the objects p transitively owns, owners outliving what they own. */
  lemma {:induction false} TeardownIsExact(s: seq<Record>, p: Ptr)
    requires Consistent(s) && AllPending(s)
    ensures TearsDown(s, TeardownEvents(s, p, 0), DoomedBy(s, p)) && OwnersOutlive(s, TeardownEvents(s, p, 0))
    ensures forall i :: i in DoomedBy(s, p) <==> Owned(Links(s), i, p)
  {
    TeardownFrom(s, p, 0);
    forall i ensures i in DoomedBy(s, p) <==> Owned(Links(s), i, p) { PostOrderIsSubtree(Links(s), p, i); }
  }

  /** Afterwards exactly the records p did not own are left, each as it was, and p owns nothing. */
  lemma {:induction false} TeardownLeavesRest(s: seq<Record>, p: Ptr)
    requires Consistent(s)
    ensures var t := Removed(s, DoomedBy(s, p));
            && (forall i :: 0 <= i < |s| && s[i].ptr != Null ==>
                 if Owned(Links(s), i, p) then t[i].ptr == Null && t[i].bytes == 0 else t[i] == s[i])
            && (forall i :: !Owned(Links(t), i, p))
  {
    var f, t := Links(s), Removed(s, DoomedBy(s, p));
    forall i ensures i in DoomedBy(s, p) <==> Owned(f, i, p) { PostOrderIsSubtree(f, p, i); }
    forall i ensures !Owned(Links(t), i, p) {
      PrunedSubtree(f, Links(t), DoomedBy(s, p), p);
      assert Owned(Links(t), i, p) ==> i in Subtree(Links(t), p) && LiveSlot(Links(t), i);
    }
  }
}
