/**
 * Requests with one newParent edit among relinks and value edits: which of them keep
 * the tree invariant, and that a commit on its own loses nothing.
 */
module TreeSetOneMove {
  import opened Basics
  import opened WireTypes
  import opened TreeState
  import opened TreeRead
  import opened TreeSet
  import opened TreeSetSafety
  import opened TreeSetTheorems
  import opened UndoLog

  lemma {:induction false} DescendsSame(s: Snap, s': Snap, root: Node, n: Node)
    requires SameParents(s, s') && Grounded(s, n)
    ensures Grounded(s', n) && (Descends(s', root, n) <==> Descends(s, root, n))
    decreases Height(s, n)
  {
    KeyPathSame(s, s', n);
    HeightStep(s, n);
    HeightStep(s', n);
    if s[n].parent != null {
      DescendsSame(s, s', root, s[n].parent);
    }
  }

  lemma SubtreeSame(s0: Snap, s: Snap, root: Node, t: Node)
    requires Inv(s0, root) && Relinked(s0, s)
    ensures Acyclic(s) && Subtree(s, t) == Subtree(s0, t)
  {
    forall n | n in s0
      ensures s[n].parent == s0[n].parent
    {
      assert ParentOf(s, n) == ParentOf(s0, n);
    }
    GroundedSame(s0, s);
    forall m | m in s0
      ensures Descends(s, t, m) <==> Descends(s0, t, m)
    {
      DescendsSame(s0, s, t, m);
    }
  }

  // --- lists after a move ------------------------------------------------------------------

  /** K holds entries of L in L's order, and t nowhere but at its end. */
  ghost predicate Tail(L: seq<Node>, K: seq<Node>, t: Node) {
    && (forall i :: 0 <= i < |K| && K[i] == t ==> i == |K| - 1)
    && (forall i :: 0 <= i < |K| && K[i] != t ==> K[i] in L)
    && (forall i, j :: 0 <= i < j < |K| && K[j] != t ==> IndexOf(L, K[i]) < IndexOf(L, K[j]))
  }

  /** Since the request began t has moved to np, and otherwise only relinks have happened. */
  ghost predicate MovedOn(s0: Snap, s: Snap, t: Node, np: Node) {
    && s.Keys == s0.Keys
    && (forall n :: n in s0 ==> ParentOf(s, n) == if n == t then np else ParentOf(s0, n))
    && (forall n :: n in s0 ==> Tail(KidsOf(s0, n), KidsOf(s, n), t))
  }

  lemma TailSplice(L: seq<Node>, K: seq<Node>, t: Node, i: nat, j: nat)
    requires Tail(L, K, t) && i <= j <= |K|
    ensures Tail(L, K[..i] + K[j..], t)
  {
    hide IndexOf;
    var r := K[..i] + K[j..];
    assert forall k :: 0 <= k < |r| ==> r[k] == if k < i then K[k] else K[k - i + j];
  }

  lemma RelistMovedOn(s0: Snap, s: Snap, t: Node, np: Node, n: Node, kids: seq<Node>)
    requires MovedOn(s0, s, t, np) && (n in s0 ==> Tail(KidsOf(s0, n), kids, t))
    ensures MovedOn(s0, WithChildren(s, n, kids), t, np)
  {
    hide Tail;
  }

  lemma TailOf(s0: Snap, s: Snap, t: Node, np: Node, n: Node)
    requires MovedOn(s0, s, t, np)
    ensures n in s0 ==> Tail(KidsOf(s0, n), KidsOf(s, n), t)
  {
    hide Tail;
  }

  lemma TailNil(L: seq<Node>, t: Node)
    ensures Tail(L, [], t)
  {
  }

  lemma FirstMovedOn(s0: Snap, s: Snap, t: Node, np: Node, u: Node, first: Node?)
    requires MovedOn(s0, s, t, np) && RelinkFirst(s, u, first).Ok?
    ensures MovedOn(s0, RelinkFirst(s, u, first).value, t, np)
  {
    hide MovedOn, Tail, IndexOf, WithChildren;
    var K := KidsOf(s, u);
    TailOf(s0, s, t, np, u);
    if first == null {
      TailNil(KidsOf(s0, u), t);
      RelistMovedOn(s0, s, t, np, u, []);
    } else {
      var i := IndexOf(K, first);
      if u in s0 {
        TailSplice(KidsOf(s0, u), K, t, 0, i);
      }
      assert K[..0] + K[i..] == K[i..];
      RelistMovedOn(s0, s, t, np, u, K[i..]);
    }
  }

  /** A sibling relink of any node but the moved one still finds its sibling ahead. */
  lemma StillForward(s0: Snap, s: Snap, t: Node, np: Node, u: Node, next: Node?)
    requires MovedOn(s0, s, t, np) && u in s0 && u != t && RelinkNext(s, u, next).Ok? && Forward(s0, u, next)
    ensures Forward(s, u, next)
    ensures MovedOn(s0, RelinkNext(s, u, next).value, t, np)
  {
    hide MovedOn, Tail, IndexOf, WithChildren, KidsOf, ParentOf, RelinkNext;
    RelinkNextParts(s, u, next);
    MovedOnParent(s0, s, t, np, u);
    var p := ParentOf(s, u);
    var L, K := KidsOf(s0, p), KidsOf(s, p);
    var i := IndexOf(K, u);
    if next == null {
      if p in s0 {
        TailSplice(L, K, t, i + 1, |K|);
      }
      assert K[|K|..] == [];
      RelistMovedOn(s0, s, t, np, p, K[..i + 1] + []);
    } else {
      var j := IndexOf(K, next);
      TailForward(L, K, t, i, j);
      TailSplice(L, K, t, i + 1, j);
      RelistMovedOn(s0, s, t, np, p, K[..i + 1] + K[j..]);
    }
  }

  lemma MovedOnParent(s0: Snap, s: Snap, t: Node, np: Node, u: Node)
    requires MovedOn(s0, s, t, np) && u in s0 && u != t && ParentOf(s, u) != null
    ensures ParentOf(s, u) == ParentOf(s0, u)
    ensures Tail(KidsOf(s0, ParentOf(s, u)), KidsOf(s, ParentOf(s, u)), t)
  {
    hide Tail;
    if ParentOf(s, u) !in s0 {
      TailNil([], t);
    }
  }

  lemma TailForward(L: seq<Node>, K: seq<Node>, t: Node, i: nat, j: nat)
    requires Tail(L, K, t) && i < |K| && j < |K| && K[i] != t
    ensures IndexOf(L, K[i]) < IndexOf(L, K[j]) ==> i < j
  {
    hide IndexOf;
    if j < i {
      assert IndexOf(L, K[j]) < IndexOf(L, K[i]);
    }
  }

  // --- the move itself -------------------------------------------------------------------------

  lemma RemoveOrdered(L: seq<Node>, K: seq<Node>, t: Node)
    requires OrderedIn(L, K) && NoDup(K)
    ensures OrderedIn(L, Remove(K, t)) && t !in Remove(K, t)
  {
    hide NoDup, IndexOf, Remove, OrderedIn;
    RemoveSpec(K, t);
    var i, j := RemoveCut(K, t);
    CutOrdered(L, K, i, j);
  }

  lemma CutOrdered(L: seq<Node>, K: seq<Node>, i: nat, j: nat)
    requires OrderedIn(L, K) && i <= j <= |K|
    ensures OrderedIn(L, K[..i] + K[j..])
  {
    hide IndexOf;
    var r := K[..i] + K[j..];
    assert forall k :: 0 <= k < |r| ==> r[k] == if k < i then K[k] else K[k - i + j];
  }

  lemma {:induction false} RemoveCut(K: seq<Node>, t: Node) returns (i: nat, j: nat)
    ensures i <= j <= |K| && Remove(K, t) == K[..i] + K[j..]
  {
    if K == [] {
      i, j := 0, 0;
    } else if K[0] == t {
      i, j := 0, 1;
    } else {
      i, j := RemoveCut(K[1..], t);
      i, j := i + 1, j + 1;
    }
  }

  lemma OrderedIsTail(L: seq<Node>, K: seq<Node>, t: Node, here: bool)
    requires OrderedIn(L, K) && t !in K
    ensures Tail(L, K + (if here then [t] else []), t)
  {
    hide IndexOf;
    var r := K + (if here then [t] else []);
    assert forall i :: 0 <= i < |K| ==> r[i] == K[i] && K[i] in K;
  }

  lemma MoveGivesTail(s0: Snap, s: Snap, root: Node, t: Node, np: Node, n: Node)
    requires Relinked(s0, s) && Inv(s, root) && t in s0 && np in s0 && n in s0
    ensures Tail(KidsOf(s0, n), MovedList(s, t, np, n), t)
  {
    hide Relinked, Inv, OrderedIn, IndexOf, NoDup, Tail;
    var L, K := KidsOf(s0, n), KidsOf(s, n);
    RelinkedList(s0, s, n);
    DistinctKids(s, root, n);
    KeysOfRelinked(s0, s);
    if n == s[t].parent {
      RemoveOrdered(L, K, t);
      OrderedIsTail(L, Remove(K, t), t, n == np);
    } else {
      ElsewhereNot(s, root, t, n);
      OrderedIsTail(L, K, t, n == np);
    }
  }

  lemma RelinkedList(s0: Snap, s: Snap, n: Node)
    requires Relinked(s0, s) && n in s0
    ensures n in s && OrderedIn(KidsOf(s0, n), KidsOf(s, n)) && ParentOf(s, n) == ParentOf(s0, n)
  {
    hide OrderedIn;
  }

  lemma ElsewhereNot(s: Snap, root: Node, t: Node, n: Node)
    requires Inv(s, root) && t in s && n in s && s[t].parent != n
    ensures t !in KidsOf(s, n)
  {
  }

  lemma MoveIsMovedOn(s0: Snap, s: Snap, root: Node, t: Node, np: Node)
    requires Relinked(s0, s) && Inv(s, root) && t in s0 && np in s0
    ensures MovedOn(s0, Moved(s, t, np), t, np)
  {
    hide Moved, Tail, MovedList, Inv, Relinked;
    KeysOfRelinked(s0, s);
    ParentInside(s, root, t);
    MovedRecords(s, t, np);
    forall n | n in s0
      ensures Tail(KidsOf(s0, n), KidsOf(Moved(s, t, np), n), t)
      ensures ParentOf(Moved(s, t, np), n) == if n == t then np else ParentOf(s0, n)
    {
      MoveGivesTail(s0, s, root, t, np, n);
      RelinkedList(s0, s, n);
    }
  }

  lemma KeysOfRelinked(s0: Snap, s: Snap)
    requires Relinked(s0, s)
    ensures s.Keys == s0.Keys
  {
  }

  // --- whole requests ------------------------------------------------------------------------------

  /**
   * At most one newParent, at edit k, which makes no circle in the tree before the
   * request; and no newNextSibling after it on the node it moved.
   */
  ghost predicate OneMove(root: Node, s0: Snap, plans: seq<Plan>, k: nat)
    requires PlansOk(s0.Keys, plans)
  {
    && (forall i :: 0 <= i < |plans| && i != k ==> plans[i].newParent.None?)
    && (k < |plans| && plans[k].newParent.Some? ==>
          && plans[k].targets[0] != root && Acyclic(s0) && plans[k].newParent.value !in Subtree(s0, plans[k].targets[0])
          && (forall i :: k < i < |plans| && plans[i].next.Some? ==> plans[i].targets[0] != plans[k].targets[0]))
  }

  /** One more plan after the move: it stays careful, and the tree stays as a move and relinks leave it. */
  lemma LaterPlan(root: Node, s0: Snap, a: Applying, p: Plan, t: Node, np: Node)
    requires MovedOn(s0, a.s, t, np) && PlanOk(s0.Keys, p) && p.newParent.None?
    requires p.next.Some? ==> p.targets[0] != t && Forward(s0, p.targets[0], p.next.value)
    ensures CarefulPlan(root, a, p)
    ensures ApplyPlan(a, p).Done? ==> MovedOn(s0, ApplyPlan(a, p).a.s, t, np)
  {
    hide WriteValues, RelinkFirst, RelinkNext, MovedOn, Forward, ApplyPlan;
    PlanStages(a, p);
    WritesMovedOn(s0, a, p, t, np);
    var o := AfterFirst(a, p);
    if p.first.Some? && o.Done? {
      FirstMovedOn(s0, AfterValues(a, p).s, t, np, p.targets[0], p.first.value);
    }
    if p.next.Some? && AfterNext(a, p).Done? {
      StillForward(s0, o.a.s, t, np, p.targets[0], p.next.value);
    }
  }

  lemma WritesMovedOn(s0: Snap, a: Applying, p: Plan, t: Node, np: Node)
    requires MovedOn(s0, a.s, t, np)
    ensures MovedOn(s0, AfterValues(a, p).s, t, np)
  {
    if p.newValue.Some? {
      hide WriteValues, Tail;
      WriteValuesFields(a, p.targets, p.newValue.value);
    }
  }

  /** The plan that moves: careful when met, and leaves the tree as a move and relinks do. */
  lemma MovingPlan(root: Node, s0: Snap, a: Applying, p: Plan, D: set<Node>)
    requires Inv(s0, root) && Inv(a.s, root) && Relinked(s0, a.s) && LostOnly(s0, a.s, D) && PlanOk(s0.Keys, p)
    requires p.next.Some? ==> Forward(s0, p.targets[0], p.next.value)
    requires p.newParent.Some? && p.targets[0] != root && p.newParent.value !in Subtree(s0, p.targets[0])
    ensures CarefulPlan(root, a, p)
    ensures ApplyPlan(a, p).Done? ==> MovedOn(s0, ApplyPlan(a, p).a.s, p.targets[0], p.newParent.value)
  {
    hide WriteValues, RelinkFirst, RelinkNext, Relinked, LostOnly, PlannedDrops, Forward, Inv, AfterFirst, AfterNext,
         Subtree;
    hide MovedOn, ApplyPlan, Moved;
    var t, np := p.targets[0], p.newParent.value;
    StagesLose(s0, a, p, D);
    if AfterNext(a, p).Done? {
      SubtreeSame(s0, AfterNext(a, p).a.s, root, t);
      assert CarefulPlan(root, a, p);
      StagesKeepInv(root, a, p);
      MoveIsMovedOn(s0, AfterNext(a, p).a.s, root, t, np);
    }
    if ApplyPlan(a, p).Done? {
      MovesLast(a, p);
    }
  }

  lemma MovesLast(a: Applying, p: Plan)
    requires |p.targets| == 1 && p.newParent.Some? && ApplyPlan(a, p).Done?
    ensures AfterNext(a, p).Done? && ApplyPlan(a, p).a.s == Moved(AfterNext(a, p).a.s, p.targets[0], p.newParent.value)
  {
    PlanStages(a, p);
    hide ApplyPlan, AfterNext, Moved;
  }

  /** Such a request is careful at every step, so it keeps the invariant. */
  lemma {:induction false} OneMoveIsCareful(root: Node, s0: Snap, plans: seq<Plan>, k: nat)
    requires Inv(s0, root) && PlansOk(s0.Keys, plans) && AllForward(s0, plans) && OneMove(root, s0, plans, k)
    ensures Careful(root, s0, plans)
    ensures k < |plans| && plans[k].newParent.Some? && Apply(s0, plans).Done? ==>
              MovedOn(s0, Apply(s0, plans).a.s, plans[k].targets[0], plans[k].newParent.value)
    decreases |plans|
  {
    hide ApplyPlan, Forward, Inv, MovedOn, CarefulPlan, Subtree, Relinked, LostOnly, AllPlannedDrops;
    var n := |plans| - 1;
    if k >= |plans| || plans[k].newParent.None? {
      RelinksLoseOnlyPlanned(root, s0, plans);
    } else if k < n {
      OneMoveIsCareful(root, s0, plans[..n], k);
      if Apply(s0, plans[..n]).Done? {
        LaterPlan(root, s0, Apply(s0, plans[..n]).a, plans[n], plans[k].targets[0], plans[k].newParent.value);
      }
    } else {
      RelinksLoseOnlyPlanned(root, s0, plans[..n]);
      if Apply(s0, plans[..n]).Done? {
        ApplyKeepsInv(root, s0, plans[..n]);
        MovingPlan(root, s0, Apply(s0, plans[..n]).a, plans[n], AllPlannedDrops(s0, plans[..n]));
      }
    }
  }

  // --- a commit: one newParent edit on its own ---------------------------------------------------

  lemma {:induction false} StillReachable(s: Snap, s': Snap, root: Node, t: Node, np: Node, n: Node)
    requires Inv(s, root) && t in s && np in s && np !in Subtree(s, t) && n in s
    requires Below(s, root, n) && Below(s, root, np) && t != root
    requires s'.Keys == s.Keys && forall m, c :: m in s ==> (c in s'[m].children <==> if c == t then m == np else c in s[m].children)
    ensures Below(s', root, n)
    decreases n in Subtree(s, t), Height(s, n)
  {
    hide Below, Closed, Owned, Distinct, Climbs;
    if n == root {
      BelowSelf(s', root);
    } else if n == t {
      StillReachable(s, s', root, t, np, np);
      BelowStep(s', root, np, t);
    } else {
      HeightStep(s, n);
      BelowParent(s, root, root, n);
      var p := s[n].parent;
      if p in Subtree(s, t) {
        assert n in Subtree(s, t);
      }
      StillReachable(s, s', root, t, np, p);
      BelowStep(s', root, p, n);
    }
  }

  /**
   * Committing a staged node with a single newParent edit loses nothing and brings
   * nothing back: exactly the same nodes are reachable, and the node hangs where asked.
   */
  lemma CommitLosesNothing(root: Node, s: Snap, p: Plan)
    requires Inv(s, root) && PlanOk(s.Keys, p) && p == Plan(p.targets, None, None, None, p.newParent) && p.newParent.Some?
    requires p.targets[0] != root && p.newParent.value !in Subtree(s, p.targets[0])
    requires Below(s, root, p.targets[0]) && Below(s, root, p.newParent.value)
    ensures PlansOk(s.Keys, [p]) && Apply(s, [p]).Done?
    ensures var s' := Apply(s, [p]).a.s;
            && Inv(s', root) && ReachSet(s', root) == ReachSet(s, root)
            && ParentOf(s', p.targets[0]) == p.newParent.value && p.targets[0] in KidsOf(s', p.newParent.value)
  {
    hide Inv, Subtree, Below, ApplyPlan, Moved;
    var t, np := p.targets[0], p.newParent.value;
    assert p.targets == [t] && [p][..0] == [];
    AttachedSomewhere(s, root, t);
    MoveAlone(Start(s), t, np);
    assert Apply(s, [p]) == ApplyPlan(Start(s), p);
    var s' := Moved(s, t, np);
    MovedFields(s, root, t, np);
    MovedKeepsInv(s, root, t, np);
    forall n | n in s
      ensures Below(s', root, n) <==> Below(s, root, n)
    {
      if Below(s, root, n) {
        StillReachable(s, s', root, t, np, n);
      }
      if Below(s', root, n) {
        NotNewlyReachable(s, s', root, t, np, n);
      }
    }
  }

  lemma AttachedSomewhere(s: Snap, root: Node, t: Node)
    requires Inv(s, root) && t in s && t != root && Below(s, root, t)
    ensures ParentOf(s, t) != null && t in KidsOf(s, ParentOf(s, t))
  {
    hide Below;
    BelowParent(s, root, root, t);
  }

  lemma NotNewlyReachable(s: Snap, s': Snap, root: Node, t: Node, np: Node, n: Node)
    requires Inv(s, root) && t in s && np in s && Below(s, root, t) && s' == Moved(s, t, np) && n in s && Below(s', root, n)
    ensures Below(s, root, n)
  {
    hide Moved, Below;
    var R := ReachSet(s, root);
    forall p, c | p in s && p in R && c in s[p].children
      ensures c in R
    {
      OwnedBy(s, root, p, c);
      BelowStep(s, root, p, c);
    }
    MovedReach(s, s', root, R, t, np);
    MovedFields(s, root, t, np);
    BelowSelf(s, root);
    StaysReachable(s', root, n, R);
  }

  lemma StaysReachable(s: Snap, root: Node, n: Node, R: set<Node>)
    requires Below(s, root, n) && root in R
    requires forall p, c :: p in s && p in R && c in s[p].children ==> c in R
    ensures n in R
  {
    var k: nat :| ReachIn(s, root, n, k);
    ReachStaysIn(s, root, n, k, R);
  }
}
