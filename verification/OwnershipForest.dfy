// The ownership relation between tracked objects, seen as a forest over the
// slots of the record table: slot i holds an object and names its owner.

module OwnershipForest {

  /** An address handed out by the underlying heap, the null pointer, or the context itself. */
  datatype Ptr = Null | Context | Block(address: nat)

  /** What the forest knows of one record: the object and the owner it names. Null marks an empty slot. */
  datatype Link = Link(ptr: Ptr, owner: Ptr)

  predicate LiveSlot(f: seq<Link>, i: int) {
    0 <= i < |f| && f[i].ptr != Null
  }

  ghost predicate Live(f: seq<Link>, p: Ptr) {
    exists i :: LiveSlot(f, i) && f[i].ptr == p
  }

  /** Following at most n owner links upwards from slot i arrives at p. */
  ghost predicate OwnedIn(f: seq<Link>, i: int, p: Ptr, n: nat)
    decreases n
  {
    && LiveSlot(f, i)
    && n > 0
    && (f[i].owner == p || exists j :: LiveSlot(f, j) && f[j].ptr == f[i].owner && OwnedIn(f, j, p, n - 1))
  }

  /** The object in slot i is transitively owned by p. */
  ghost predicate Owned(f: seq<Link>, i: int, p: Ptr) {
    exists n: nat :: OwnedIn(f, i, p, n)
  }

  /** Slot i is slot c, or is transitively owned by the object in slot c. */
  ghost predicate Below(f: seq<Link>, i: int, c: int) {
    LiveSlot(f, c) && (i == c || Owned(f, i, f[c].ptr))
  }

  ghost predicate HasChild(f: seq<Link>, p: Ptr) {
    exists i :: LiveSlot(f, i) && f[i].owner == p
  }

  ghost predicate Distinct(f: seq<Link>) {
    forall i, j :: LiveSlot(f, i) && LiveSlot(f, j) && f[i].ptr == f[j].ptr ==> i == j
  }

  ghost predicate Acyclic(f: seq<Link>) {
    forall i :: LiveSlot(f, i) ==> !Owned(f, i, f[i].ptr)
  }

  /** Live pointers are distinct, the context is no record of itself, and nothing owns itself. */
  ghost predicate Forest(f: seq<Link>) {
    Distinct(f) && Acyclic(f) && !Live(f, Context)
  }

  /** Every owner is null, the context or a live object. */
  ghost predicate OwnersLive(f: seq<Link>) {
    forall i :: LiveSlot(f, i) ==> f[i].owner == Null || f[i].owner == Context || Live(f, f[i].owner)
  }

  /** The slots transitively owned by p. */
  ghost function Subtree(f: seq<Link>, p: Ptr): set<int> {
    set i | 0 <= i < |f| && Owned(f, i, p)
  }

  // ---------- the transitive closure ----------

  lemma {:induction false} OwnedUnfold(f: seq<Link>, i: int, p: Ptr)
    requires LiveSlot(f, i)
    ensures Owned(f, i, p) <==>
            f[i].owner == p || exists j :: LiveSlot(f, j) && f[j].ptr == f[i].owner && Owned(f, j, p)
  {
    if f[i].owner == p {
      assert OwnedIn(f, i, p, 1);
    } else if Owned(f, i, p) {
      var n: nat :| OwnedIn(f, i, p, n);
      var j :| LiveSlot(f, j) && f[j].ptr == f[i].owner && OwnedIn(f, j, p, n - 1);
      assert Owned(f, j, p);
    } else if j :| LiveSlot(f, j) && f[j].ptr == f[i].owner && Owned(f, j, p) {
      var n: nat :| OwnedIn(f, j, p, n);
      assert OwnedIn(f, i, p, n + 1);
    }
  }

  lemma {:induction false} OwnedInTransitive(f: seq<Link>, i: int, c: int, p: Ptr, n: nat)
    requires LiveSlot(f, c) && OwnedIn(f, i, f[c].ptr, n) && Owned(f, c, p)
    ensures Owned(f, i, p)
    decreases n
  {
    if f[i].owner != f[c].ptr {
      var j :| LiveSlot(f, j) && f[j].ptr == f[i].owner && OwnedIn(f, j, f[c].ptr, n - 1);
      OwnedInTransitive(f, j, c, p, n - 1);
    }
    OwnedUnfold(f, i, p);
  }

  /** Being owned is transitive. */
  lemma {:induction false} OwnedTransitive(f: seq<Link>, i: int, c: int, p: Ptr)
    requires LiveSlot(f, c) && Owned(f, i, f[c].ptr) && Owned(f, c, p)
    ensures Owned(f, i, p)
  {
    var n: nat :| OwnedIn(f, i, f[c].ptr, n);
    OwnedInTransitive(f, i, c, p, n);
  }

  lemma {:induction false} OwnedInThroughChild(f: seq<Link>, i: int, p: Ptr, n: nat) returns (c: int)
    requires OwnedIn(f, i, p, n)
    ensures Below(f, i, c) && f[c].owner == p
    decreases n
  {
    if f[i].owner == p {
      c := i;
    } else {
      var j :| LiveSlot(f, j) && f[j].ptr == f[i].owner && OwnedIn(f, j, p, n - 1);
      c := OwnedInThroughChild(f, j, p, n - 1);
      OwnedUnfold(f, i, f[c].ptr);
    }
  }

  /** Everything p owns lies below one of the objects p owns directly, and the converse. */
  lemma {:induction false} OwnedIffBelowChild(f: seq<Link>, i: int, p: Ptr)
    ensures Owned(f, i, p) <==> exists c :: Below(f, i, c) && f[c].owner == p
  {
    if Owned(f, i, p) {
      var n: nat :| OwnedIn(f, i, p, n);
      var c := OwnedInThroughChild(f, i, p, n);
    }
    if c :| Below(f, i, c) && f[c].owner == p {
      OwnedUnfold(f, c, p);
      if i != c { OwnedTransitive(f, i, c, p); }
    }
  }

  lemma {:induction false} SiblingsDisjointIn(f: seq<Link>, i: int, c: int, d: int, n: nat)
    requires Forest(f) && LiveSlot(f, c) && LiveSlot(f, d) && c != d && f[c].owner == f[d].owner
    requires i == c || OwnedIn(f, i, f[c].ptr, n)
    ensures !Below(f, i, d)
    decreases n
  {
    if Below(f, i, d) {
      if i == c || i == d {
        var e := if i == c then d else c;
        // i has the same owner as e and lies below it, so e lies below itself
        OwnedUnfold(f, i, f[e].ptr);
        OwnedUnfold(f, e, f[e].ptr);
        assert false;
      } else {
        OwnedUnfold(f, i, f[d].ptr);
        if f[i].owner == f[c].ptr {
          assert Owned(f, c, f[d].ptr);
          SiblingsDisjointIn(f, c, c, d, 0);
        } else {
          var j :| LiveSlot(f, j) && f[j].ptr == f[i].owner && OwnedIn(f, j, f[c].ptr, n - 1);
          SiblingsDisjointIn(f, j, c, d, n - 1);
        }
      }
    }
  }

  /** The subtrees of two objects with the same owner share no slot. */
  lemma {:induction false} SiblingsDisjoint(f: seq<Link>, i: int, c: int, d: int)
    requires Forest(f) && LiveSlot(f, c) && LiveSlot(f, d) && c != d && f[c].owner == f[d].owner
    ensures !(Below(f, i, c) && Below(f, i, d))
  {
    if Below(f, i, c) {
      if i == c {
        SiblingsDisjointIn(f, i, c, d, 0);
      } else {
        var n: nat :| OwnedIn(f, i, f[c].ptr, n);
        SiblingsDisjointIn(f, i, c, d, n);
      }
    }
  }

  /** The rank that makes the destroy recursion terminate: an owned object owns strictly less than its owner. */
  lemma {:induction false} SubtreeShrinks(f: seq<Link>, c: int, p: Ptr)
    requires Forest(f) && LiveSlot(f, c) && f[c].owner == p
    ensures Subtree(f, f[c].ptr) < Subtree(f, p)
  {
    OwnedUnfold(f, c, p);
    forall i | i in Subtree(f, f[c].ptr) ensures i in Subtree(f, p) {
      OwnedTransitive(f, i, c, p);
    }
    assert c in Subtree(f, p) && c !in Subtree(f, f[c].ptr);
  }

  // ---------- the order in which objects are torn down ----------

  /** Slots owned by p, children from slot k on, each after everything it owns. */
  ghost function PostOrder(f: seq<Link>, p: Ptr, k: nat): (order: seq<int>)
    requires Forest(f) && k <= |f|
    decreases Subtree(f, p), |f| - k
  {
    if k == |f| then []
    else if LiveSlot(f, k) && f[k].owner == p then
      SubtreeShrinks(f, k, p);
      PostOrder(f, f[k].ptr, 0) + [k] + PostOrder(f, p, k + 1)
    else PostOrder(f, p, k + 1)
  }

  lemma {:induction false} PostOrderFrom(f: seq<Link>, p: Ptr, k: nat, i: int)
    requires Forest(f) && k <= |f|
    ensures i in PostOrder(f, p, k) <==> exists c :: k <= c && Below(f, i, c) && f[c].owner == p
    decreases Subtree(f, p), |f| - k
  {
    if k < |f| {
      PostOrderFrom(f, p, k + 1, i);
      if LiveSlot(f, k) && f[k].owner == p {
        SubtreeShrinks(f, k, p);
        PostOrderFrom(f, f[k].ptr, 0, i);
        OwnedIffBelowChild(f, i, f[k].ptr);
        assert i in PostOrder(f, f[k].ptr, 0) + [k] <==> Below(f, i, k);
      }
    }
  }

  /** The tear-down order lists exactly what p transitively owns. */
  lemma {:induction false} PostOrderIsSubtree(f: seq<Link>, p: Ptr, i: int)
    requires Forest(f)
    ensures i in PostOrder(f, p, 0) <==> Owned(f, i, p)
  {
    PostOrderFrom(f, p, 0, i);
    OwnedIffBelowChild(f, i, p);
  }

  ghost predicate NoRepeats(order: seq<int>) {
    forall x, y :: 0 <= x < y < |order| ==> order[x] != order[y]
  }

  /** An object stands after everything it owns. */
  ghost predicate OwnedFirst(f: seq<Link>, order: seq<int>) {
    forall x, y :: 0 <= x < |order| && 0 <= y < |order| && LiveSlot(f, order[y]) && Owned(f, order[x], f[order[y]].ptr)
                   ==> x < y
  }

  lemma {:induction false} NoRepeatsConcat(a: seq<int>, b: seq<int>)
    requires NoRepeats(a) && NoRepeats(b)
    requires forall i :: i in a ==> i !in b
    ensures NoRepeats(a + b)
  {
    forall x, y | 0 <= x < y < |a + b| ensures (a + b)[x] != (a + b)[y] {
      if x < |a| <= y { assert a[x] in a && b[y - |a|] in b; }
    }
  }

  /** No object is listed twice. */
  lemma {:induction false} PostOrderNoRepeats(f: seq<Link>, p: Ptr, k: nat)
    requires Forest(f) && k <= |f|
    ensures NoRepeats(PostOrder(f, p, k))
    decreases Subtree(f, p), |f| - k
  {
    if k < |f| {
      PostOrderNoRepeats(f, p, k + 1);
      if LiveSlot(f, k) && f[k].owner == p {
        SubtreeShrinks(f, k, p);
        var below, rest := PostOrder(f, f[k].ptr, 0), PostOrder(f, p, k + 1);
        PostOrderNoRepeats(f, f[k].ptr, 0);
        PostOrderIsSubtree(f, f[k].ptr, k);
        NoRepeatsConcat(below, [k]);
        forall i | i in below + [k] ensures i !in rest {
          PostOrderIsSubtree(f, f[k].ptr, i);
          PostOrderFrom(f, p, k + 1, i);
          forall c | k + 1 <= c && Below(f, i, c) && f[c].owner == p ensures false {
            SiblingsDisjoint(f, i, k, c);
          }
        }
        NoRepeatsConcat(below + [k], rest);
      }
    }
  }

  /** Nothing among child k and its later siblings is owned by an object below child k. */
  lemma {:induction false} ChildKBlocksOrder(f: seq<Link>, p: Ptr, k: nat, i: int, j: int)
    requires Forest(f) && LiveSlot(f, k) && f[k].owner == p
    requires i == k || i in PostOrder(f, p, k + 1)
    requires j == k || j in PostOrder(f, f[k].ptr, 0)
    ensures LiveSlot(f, j) && !Owned(f, i, f[j].ptr)
  {
    PostOrderIsSubtree(f, f[k].ptr, j);
    if Owned(f, i, f[j].ptr) {
      if j != k { OwnedTransitive(f, i, j, f[k].ptr); }
      if i != k {
        PostOrderFrom(f, p, k + 1, i);
        var c :| k + 1 <= c && Below(f, i, c) && f[c].owner == p;
        SiblingsDisjoint(f, i, k, c);
      }
      assert false;
    }
  }

  /** Every object is listed after all it owns. */
  lemma {:induction false} PostOrderOwnedFirst(f: seq<Link>, p: Ptr, k: nat)
    requires Forest(f) && k <= |f|
    ensures OwnedFirst(f, PostOrder(f, p, k))
    decreases Subtree(f, p), |f| - k
  {
    if k < |f| {
      PostOrderOwnedFirst(f, p, k + 1);
      if LiveSlot(f, k) && f[k].owner == p {
        SubtreeShrinks(f, k, p);
        PostOrderOwnedFirst(f, f[k].ptr, 0);
        var below, rest := PostOrder(f, f[k].ptr, 0), PostOrder(f, p, k + 1);
        var order := below + [k] + rest;
        forall x, y | 0 <= x < |order| && 0 <= y < |order| && LiveSlot(f, order[y])
          && Owned(f, order[x], f[order[y]].ptr)
          ensures x < y
        {
          var i, j := order[x], order[y];
          if x < |below| && y < |below| {
            assert below[x] == i && below[y] == j;
          } else if x > |below| && y > |below| {
            assert rest[x - |below| - 1] == i && rest[y - |below| - 1] == j;
          } else if y <= |below| <= x {
            ChildKBlocksOrder(f, p, k, i, j);
          }
        }
      }
    }
  }

  /** A pointer nobody names as owner has an empty order. */
  lemma {:induction false} PostOrderOfChildless(f: seq<Link>, p: Ptr, k: nat)
    requires Forest(f) && k <= |f| && !HasChild(f, p)
    ensures PostOrder(f, p, k) == []
    decreases |f| - k
  {
    if k < |f| { PostOrderOfChildless(f, p, k + 1); }
  }

  // ---------- what removing, adding, moving and handing over do to the forest ----------

  /** g is f with some slots emptied. */
  ghost predicate Pruned(f: seq<Link>, g: seq<Link>, gone: seq<int>) {
    && |f| == |g|
    && forall i :: 0 <= i < |f| ==> g[i] == if i in gone then Link(Null, Null) else f[i]
  }

  lemma {:induction false} PrunedOwnedIn(f: seq<Link>, g: seq<Link>, gone: seq<int>, i: int, p: Ptr, n: nat)
    requires Pruned(f, g, gone) && OwnedIn(g, i, p, n)
    ensures OwnedIn(f, i, p, n)
    decreases n
  {
    if g[i].owner != p {
      var j :| LiveSlot(g, j) && g[j].ptr == g[i].owner && OwnedIn(g, j, p, n - 1);
      PrunedOwnedIn(f, g, gone, j, p, n - 1);
    }
  }

  lemma {:induction false} PrunedForest(f: seq<Link>, g: seq<Link>, gone: seq<int>)
    requires Forest(f) && Pruned(f, g, gone)
    ensures Forest(g)
  {
    forall i | LiveSlot(g, i) ensures !Owned(g, i, g[i].ptr) {
      forall n: nat | OwnedIn(g, i, g[i].ptr, n) ensures false {
        PrunedOwnedIn(f, g, gone, i, g[i].ptr, n);
      }
    }
  }

  lemma {:induction false} PrunedSubtree(f: seq<Link>, g: seq<Link>, gone: seq<int>, p: Ptr)
    requires Forest(f) && Pruned(f, g, gone)
    ensures Subtree(g, p) <= Subtree(f, p)
  {
    forall i | i in Subtree(g, p) ensures i in Subtree(f, p) {
      var n: nat :| OwnedIn(g, i, p, n);
      PrunedOwnedIn(f, g, gone, i, p, n);
    }
  }

  /** Emptying slots outside an order leaves that order as it was. */
  lemma {:induction false} PrunedPostOrder(f: seq<Link>, g: seq<Link>, gone: seq<int>, p: Ptr, k: nat)
    requires Forest(f) && Forest(g) && Pruned(f, g, gone) && k <= |f|
    requires forall i :: i in PostOrder(f, p, k) ==> i !in gone
    ensures PostOrder(g, p, k) == PostOrder(f, p, k)
    decreases Subtree(f, p), |f| - k
  {
    if k < |f| {
      if LiveSlot(f, k) && f[k].owner == p {
        SubtreeShrinks(f, k, p);
        var below, rest := PostOrder(f, f[k].ptr, 0), PostOrder(f, p, k + 1);
        assert PostOrder(f, p, k) == below + [k] + rest;
        assert k in PostOrder(f, p, k);
        PrunedPostOrder(f, g, gone, f[k].ptr, 0);
      }
      PrunedPostOrder(f, g, gone, p, k + 1);
    }
  }

  /** Removing an object with everything it owns orphans nobody. */
  lemma {:induction false} PrunedOwnersLive(f: seq<Link>, g: seq<Link>, gone: seq<int>, c: int)
    requires Forest(f) && OwnersLive(f) && LiveSlot(f, c)
    requires gone == PostOrder(f, f[c].ptr, 0) + [c] && Pruned(f, g, gone)
    ensures OwnersLive(g)
  {
    forall i | LiveSlot(g, i) ensures g[i].owner == Null || g[i].owner == Context || Live(g, g[i].owner) {
      if j :| LiveSlot(f, j) && f[j].ptr == f[i].owner {
        if j in gone {
          PostOrderIsSubtree(f, f[c].ptr, j);
          OwnedUnfold(f, i, f[c].ptr);
          PostOrderIsSubtree(f, f[c].ptr, i);
        }
        assert LiveSlot(g, j);
      }
    }
  }

  /** An owner link followed in g, where only slot k differs and nobody is owned by the object there. */
  lemma {:induction false} LeafOwnedIn(f: seq<Link>, g: seq<Link>, k: int, i: int, p: Ptr, n: nat)
    requires |f| == |g| && 0 <= k < |f| && forall j :: 0 <= j < |f| && j != k ==> f[j] == g[j]
    requires LiveSlot(g, k) && !HasChild(g, g[k].ptr)
    requires i != k && OwnedIn(g, i, p, n)
    ensures OwnedIn(f, i, p, n)
    decreases n
  {
    if g[i].owner != p {
      var j :| LiveSlot(g, j) && g[j].ptr == g[i].owner && OwnedIn(g, j, p, n - 1);
      LeafOwnedIn(f, g, k, j, p, n - 1);
    }
  }

  /** Filling or renaming slot k with an object nobody is owned by keeps the forest. */
  lemma {:induction false} LeafKeepsForest(f: seq<Link>, g: seq<Link>, k: int)
    requires Forest(f) && |f| == |g| && LiveSlot(g, k) && g[k].ptr != Context
    requires forall j :: 0 <= j < |f| && j != k ==> f[j] == g[j] && (LiveSlot(f, j) ==> f[j].ptr != g[k].ptr)
    requires !HasChild(g, g[k].ptr)
    ensures Forest(g)
  {
    forall i | LiveSlot(g, i) ensures !Owned(g, i, g[i].ptr) {
      forall n: nat | OwnedIn(g, i, g[i].ptr, n) ensures false {
        if i == k {
          var c := OwnedInThroughChild(g, i, g[i].ptr, n);
        } else {
          LeafOwnedIn(f, g, k, i, g[i].ptr, n);
        }
      }
    }
  }

  /** Handing the object in slot t to a new owner. */
  function Handed(f: seq<Link>, t: int, owner: Ptr): seq<Link>
    requires 0 <= t < |f|
  {
    f[t := Link(f[t].ptr, owner)]
  }

  lemma {:induction false} HandedKeepsPathTo(f: seq<Link>, t: int, owner: Ptr, i: int, n: nat)
    requires Forest(f) && LiveSlot(f, t) && i != t && OwnedIn(f, i, f[t].ptr, n)
    ensures OwnedIn(Handed(f, t, owner), i, f[t].ptr, n)
    decreases n
  {
    if f[i].owner != f[t].ptr {
      var j :| LiveSlot(f, j) && f[j].ptr == f[i].owner && OwnedIn(f, j, f[t].ptr, n - 1);
      HandedKeepsPathTo(f, t, owner, j, n - 1);
      assert LiveSlot(Handed(f, t, owner), j);
    }
  }

  /** A path that avoids everything below t is the same path after the hand-over. */
  lemma {:induction false} HandedPathOutside(f: seq<Link>, t: int, owner: Ptr, i: int, p: Ptr, n: nat)
    requires LiveSlot(f, t) && !Below(f, i, t) && OwnedIn(Handed(f, t, owner), i, p, n)
    ensures OwnedIn(f, i, p, n) && p != f[t].ptr
    decreases n
  {
    var g := Handed(f, t, owner);
    OwnedUnfold(f, i, f[t].ptr);
    if g[i].owner != p {
      var j :| LiveSlot(g, j) && g[j].ptr == g[i].owner && OwnedIn(g, j, p, n - 1);
      assert LiveSlot(f, j) && f[j].ptr == f[i].owner;
      HandedPathOutside(f, t, owner, j, p, n - 1);
    }
  }

  lemma {:induction false} HandedPathThrough(f: seq<Link>, t: int, w: int, i: int, p: Ptr, n: nat)
    requires LiveSlot(f, t) && LiveSlot(f, w) && !Below(f, w, t) && Distinct(f)
    requires OwnedIn(Handed(f, t, f[w].ptr), i, p, n)
    ensures Owned(f, i, p) || (Below(f, i, t) && (p == f[w].ptr || Owned(f, w, p)))
    decreases n
  {
    var g := Handed(f, t, f[w].ptr);
    if g[i].owner == p {
      if i != t { OwnedUnfold(f, i, p); }
    } else {
      var j :| LiveSlot(g, j) && g[j].ptr == g[i].owner && OwnedIn(g, j, p, n - 1);
      if i == t {
        assert j == w;
        HandedPathOutside(f, t, f[w].ptr, w, p, n - 1);
      } else {
        HandedPathThrough(f, t, w, j, p, n - 1);
        assert LiveSlot(f, j) && f[j].ptr == f[i].owner;
        OwnedUnfold(f, i, p);
        OwnedUnfold(f, i, f[t].ptr);
      }
    }
  }

  /** A hand-over keeps the forest exactly when the new owner does not lie below the object handed over. */
  lemma {:induction false} HandedForest(f: seq<Link>, t: int, owner: Ptr)
    requires Forest(f) && LiveSlot(f, t)
    ensures Forest(Handed(f, t, owner)) <==> !exists w :: LiveSlot(f, w) && f[w].ptr == owner && Below(f, w, t)
  {
    var g := Handed(f, t, owner);
    assert forall i :: LiveSlot(f, i) <==> LiveSlot(g, i);
    if w :| LiveSlot(f, w) && f[w].ptr == owner && Below(f, w, t) {
      if w != t {
        var n: nat :| OwnedIn(f, w, f[t].ptr, n);
        HandedKeepsPathTo(f, t, owner, w, n);
        assert LiveSlot(g, w) && g[w].ptr == g[t].owner && Owned(g, w, g[t].ptr);
      }
      OwnedUnfold(g, t, g[t].ptr);
      assert LiveSlot(g, t) && Owned(g, t, g[t].ptr);
    } else {
      forall i | LiveSlot(g, i) ensures !Owned(g, i, g[i].ptr) {
        forall n: nat | OwnedIn(g, i, g[i].ptr, n) ensures false {
          HandedHasNoCycle(f, t, owner, i, n);
        }
      }
      assert !Live(g, Context);
    }
  }

  lemma {:induction false} HandedHasNoCycle(f: seq<Link>, t: int, owner: Ptr, i: int, n: nat)
    requires Forest(f) && LiveSlot(f, t) && LiveSlot(f, i)
    requires !exists w :: LiveSlot(f, w) && f[w].ptr == owner && Below(f, w, t)
    ensures !OwnedIn(Handed(f, t, owner), i, f[i].ptr, n)
  {
    var g := Handed(f, t, owner);
    if OwnedIn(g, i, f[i].ptr, n) {
      if w :| LiveSlot(f, w) && f[w].ptr == owner {
        HandedPathThrough(f, t, w, i, f[i].ptr, n);
        if w != i && Owned(f, w, f[i].ptr) && i != t { OwnedTransitive(f, w, i, f[t].ptr); }
        assert false;
      } else {
        // the new owner is not a tracked object, so no path continues above t
        DanglingPath(f, t, owner, i, n);
      }
    }
  }

  lemma {:induction false} DanglingPathIn(f: seq<Link>, t: int, owner: Ptr, i: int, p: Ptr, n: nat)
    requires LiveSlot(f, t) && !Live(f, owner) && Live(f, p) && OwnedIn(Handed(f, t, owner), i, p, n)
    ensures OwnedIn(f, i, p, n)
    decreases n
  {
    var g := Handed(f, t, owner);
    if g[i].owner != p {
      var j :| LiveSlot(g, j) && g[j].ptr == g[i].owner && OwnedIn(g, j, p, n - 1);
      assert LiveSlot(f, j);
      DanglingPathIn(f, t, owner, j, p, n - 1);
    }
  }

  lemma {:induction false} DanglingPath(f: seq<Link>, t: int, owner: Ptr, i: int, n: nat)
    requires Forest(f) && LiveSlot(f, t) && LiveSlot(f, i) && !Live(f, owner)
    ensures !OwnedIn(Handed(f, t, owner), i, f[i].ptr, n)
  {
    if OwnedIn(Handed(f, t, owner), i, f[i].ptr, n) {
      DanglingPathIn(f, t, owner, i, f[i].ptr, n);
    }
  }
}
