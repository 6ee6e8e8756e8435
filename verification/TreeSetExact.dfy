/**
 * Exactly which requests keep the tree invariant: those that succeed by the parents they
 * write last and by the lists they leave, which fit wherever each next sibling lies ahead
 * as it is met; those that conflict by whether rollback puts every parent back.
 */
module TreeSetExact {
  import opened Basics
  import opened WireTypes
  import opened TreeState
  import opened TreeSet
  import opened TreeSetSafety
  import opened UndoLog

  // --- requests that succeed -----------------------------------------------------------------

  lemma ShrunkListsKeepShape(s: Snap, s': Snap)
    requires Shape(s) && s'.Keys == s.Keys
    requires forall n :: n in s ==> s'[n].parent == s[n].parent
    requires forall n, c :: n in s && c in s'[n].children ==> c in s[n].children
    requires forall n :: n in s ==> NoDup(s'[n].children)
    ensures Shape(s')
  {
    hide NoDup;
  }

  lemma WritesKeepShape(a: Applying, ts: seq<Node>, v: NodeValue)
    requires Shape(a.s)
    ensures Shape(WriteValues(a, ts, v).s) && WriteValues(a, ts, v).s.Keys == a.s.Keys
  {
    hide WriteValues, NoDup;
    WriteValuesFields(a, ts, v);
  }

  lemma RelistKeepsShape(s: Snap, n: Node, kids: seq<Node>)
    requires Shape(s) && NoDup(kids) && forall c :: c in kids ==> c in KidsOf(s, n)
    ensures Shape(WithChildren(s, n, kids))
  {
    hide NoDup;
    ShrunkListsKeepShape(s, WithChildren(s, n, kids));
  }

  lemma ShapeKids(s: Snap, n: Node)
    requires Shape(s)
    ensures NoDup(KidsOf(s, n))
  {
  }

  lemma RelinkFirstKeepsShape(s: Snap, t: Node, first: Node?)
    requires Shape(s) && RelinkFirst(s, t, first).Ok?
    ensures Shape(RelinkFirst(s, t, first).value)
  {
    hide Shape, WithChildren;
    ShapeKids(s, t);
    var kids := KidsOf(s, t);
    RelistKeepsShape(s, t, if first == null then [] else kids[IndexOf(kids, first)..]);
  }

  lemma TwiceIsNoShape(s: Snap, t: Node)
    requires TwiceInItsList(s, t)
    ensures !Shape(s)
  {
    hide Closed, Owned;
    DistinctFails(s, ParentOf(s, t));
  }

  lemma RelinkNextKeepsShape(s: Snap, t: Node, next: Node?)
    requires Shape(s) && RelinkNext(s, t, next).Ok?
    ensures Forward(s, t, next) ==> Shape(RelinkNext(s, t, next).value)
    ensures !Forward(s, t, next) ==> TwiceInItsList(RelinkNext(s, t, next).value, t)
  {
    hide Owned, Distinct;
    if !Forward(s, t, next) {
      BackwardTwice(s, t, next);
    } else {
      var kids := KidsOf(s, ParentOf(s, t));
      var i := IndexOf(kids, t);
      ShapeKids(s, ParentOf(s, t));
      if next == null {
        RelistKeepsShape(s, ParentOf(s, t), kids[..i + 1]);
      } else {
        SpliceNoDup(kids, i, IndexOf(kids, next));
        RelistKeepsShape(s, ParentOf(s, t), kids[..i + 1] + kids[IndexOf(kids, next)..]);
      }
    }
  }

  /** The next sibling that a plan names lies ahead of its target, as the plan is met. */
  ghost predicate AheadPlan(a: Applying, p: Plan)
    requires p.Structural() ==> |p.targets| == 1
  {
    p.next.Some? && AfterNext(a, p).Done? ==> Forward(AfterFirst(a, p).a.s, p.targets[0], p.next.value)
  }

  ghost predicate AheadAsMet(s: Snap, plans: seq<Plan>)
    requires PlansOk(s.Keys, plans)
  {
    plans != [] ==>
      var n := |plans| - 1;
      && AheadAsMet(s, plans[..n])
      && (Apply(s, plans[..n]).Done? ==> AheadPlan(Apply(s, plans[..n]).a, plans[n]))
  }

  /** Lists stay in order up to a plan's move exactly when its next sibling lies ahead. */
  lemma RelinksShape(a: Applying, p: Plan)
    requires PlanOk(a.s.Keys, p) && Shape(a.s) && AfterNext(a, p).Done?
    ensures AheadPlan(a, p) ==> Shape(AfterNext(a, p).a.s)
    ensures !AheadPlan(a, p) ==> TwiceInItsList(AfterNext(a, p).a.s, p.targets[0])
    ensures AfterNext(a, p).a.s.Keys == a.s.Keys
  {
    hide Shape, WriteValues, RelinkFirst, RelinkNext, Forward, TwiceInItsList;
    KeysKept(a.s, a, p);
    if p.newValue.Some? {
      WritesKeepShape(a, p.targets, p.newValue.value);
    }
    if p.first.Some? {
      RelinkFirstKeepsShape(AfterValues(a, p).s, p.targets[0], p.first.value);
    }
    if p.next.Some? {
      RelinkNextKeepsShape(AfterFirst(a, p).a.s, p.targets[0], p.next.value);
    }
  }

  lemma PlanShape(a: Applying, p: Plan)
    requires PlanOk(a.s.Keys, p) && Shape(a.s) && ApplyPlan(a, p).Done?
    ensures Shape(ApplyPlan(a, p).a.s) <==> AheadPlan(a, p)
    ensures ApplyPlan(a, p).a.s.Keys == a.s.Keys
  {
    PlanStages(a, p);
    hide ApplyPlan, AfterFirst, Moved, Shape, TwiceInItsList, AheadPlan;
    var o := AfterNext(a, p);
    RelinksShape(a, p);
    hide AfterNext;
    if !AheadPlan(a, p) {
      TwiceIsNoShape(o.a.s, p.targets[0]);
    }
    if p.newParent.Some? {
      var t, np := p.targets[0], p.newParent.value;
      MovedParts(o.a.s, t, np);
      if AheadPlan(a, p) {
        MovedKeepsShape(o.a.s, t, np);
      } else {
        MovedTwiceListed(o.a.s, t, np);
      }
    }
  }

  /** After each applied edit every list names its nodes once, each a child of its owner. */
  ghost predicate ShapeAlong(s: Snap, plans: seq<Plan>)
    requires PlansOk(s.Keys, plans)
  {
    plans != [] ==> ShapeAlong(s, plans[..|plans| - 1]) && Shape(Apply(s, plans).a.s)
  }

  /** Lists stay in order at every edit exactly when each next sibling lies ahead as it is met, whatever is moved where. */
  lemma {:induction false} ListsExact(s: Snap, plans: seq<Plan>)
    requires PlansOk(s.Keys, plans) && Shape(s) && Apply(s, plans).Done?
    ensures ShapeAlong(s, plans) <==> AheadAsMet(s, plans)
    ensures AheadAsMet(s, plans) ==> Shape(Apply(s, plans).a.s)
  {
    hide Shape, AheadPlan, ApplyPlan;
    if plans != [] {
      var n := |plans| - 1;
      ListsExact(s, plans[..n]);
      ApplyKeepsKeys(s, plans[..n]);
      if AheadAsMet(s, plans[..n]) {
        PlanShape(Apply(s, plans[..n]).a, plans[n]);
      }
    }
  }

  lemma {:induction false} CarefulIsAhead(root: Node, s: Snap, plans: seq<Plan>)
    requires PlansOk(s.Keys, plans) && Careful(root, s, plans)
    ensures AheadAsMet(s, plans)
  {
    hide AfterNext, AfterFirst, Forward, Acyclic, Subtree, Apply;
    if plans != [] {
      CarefulIsAhead(root, s, plans[..|plans| - 1]);
    }
  }

  /** The tree before the request with each node's parent as the last move of it sets it. */
  ghost function LastParents(s: Snap, plans: seq<Plan>): Snap
    requires PlansOk(s.Keys, plans)
  {
    map n | n in s :: s[n].(parent := After(s[n].parent, AllMoves(s.Keys, plans), n))
  }

  ghost predicate LastParentsFit(root: Node, s: Snap, plans: seq<Plan>)
    requires PlansOk(s.Keys, plans)
  {
    var last := LastParents(s, plans);
    root in last && last[root].parent == null && Acyclic(last)
  }

  /** No list that the request leaves names a node twice, or one that was last moved elsewhere. */
  ghost predicate ListsFit(s: Snap, plans: seq<Plan>)
    requires PlansOk(s.Keys, plans)
  {
    var (s', last) := (Apply(s, plans).a.s, LastParents(s, plans));
    && (forall n :: n in s' ==> NoDup(s'[n].children))
    && (forall n, c :: n in s' && c in s'[n].children ==> c in last && last[c].parent == n)
  }

  lemma ParentsAreLast(s: Snap, plans: seq<Plan>)
    requires PlansOk(s.Keys, plans) && Apply(s, plans).Done?
    ensures var (s', last) := (Apply(s, plans).a.s, LastParents(s, plans));
            s'.Keys == last.Keys == s.Keys && forall n :: n in s ==> s'[n].parent == last[n].parent
  {
    hide Apply, AllMoves, After;
    ApplyKeepsKeys(s, plans);
    forall n | n in s
      ensures Apply(s, plans).a.s[n].parent == LastParents(s, plans)[n].parent
    {
      SuccessWritesLast(s, plans, n);
    }
  }

  lemma GroundedParents(s: Snap, n: Node)
    requires Acyclic(s) && n in s
    ensures s[n].parent != null ==> s[n].parent in s
  {
    assert Grounded(s, n);
    var k: nat :| Climbs(s, n, k);
    if s[n].parent != null {
      assert Climbs(s, s[n].parent, k - 1);
    }
  }

  /**
   * A successful request, whatever it mixes, leaves a tree that satisfies the invariant
   * exactly when the parents written last leave the root on top and make no circle, and
   * the lists fit them, whatever the trees in between.
   */
  lemma SuccessExact(root: Node, s: Snap, plans: seq<Plan>)
    requires PlansOk(s.Keys, plans) && Apply(s, plans).Done?
    ensures Inv(Apply(s, plans).a.s, root) <==> LastParentsFit(root, s, plans) && ListsFit(s, plans)
  {
    hide Apply, Acyclic, AllMoves, After, NoDup, LastParents, PlansOk;
    ParentsAreLast(s, plans);
    var s', last := Apply(s, plans).a.s, LastParents(s, plans);
    if Acyclic(last) {
      GroundedSame(last, s');
      forall n | n in s'
        ensures s'[n].parent != null ==> s'[n].parent in s'
      {
        GroundedParents(s', n);
      }
    }
    if Acyclic(s') {
      GroundedSame(s', last);
    }
  }

  /** Where each next sibling lies ahead as it is met, lists take care of themselves: the parents written last decide alone. */
  lemma AheadExact(root: Node, s: Snap, plans: seq<Plan>)
    requires PlansOk(s.Keys, plans) && Shape(s) && Apply(s, plans).Done? && AheadAsMet(s, plans)
    ensures ListsFit(s, plans)
    ensures Inv(Apply(s, plans).a.s, root) <==> LastParentsFit(root, s, plans)
  {
    hide Apply, AheadAsMet, LastParentsFit, LastParents, NoDup, Inv, ShapeAlong;
    ListsExact(s, plans);
    ParentsAreLast(s, plans);
    SuccessExact(root, s, plans);
  }

  /** So of requests without next siblings, whatever they move, cut and write. */
  lemma {:induction false} NoNextIsAhead(s: Snap, plans: seq<Plan>)
    requires PlansOk(s.Keys, plans) && forall i :: 0 <= i < |plans| ==> plans[i].next.None?
    ensures AheadAsMet(s, plans)
  {
    hide Apply;
    if plans != [] {
      NoNextIsAhead(s, plans[..|plans| - 1]);
    }
  }

  // --- requests that conflict ----------------------------------------------------------------

  /** Lists have gained moved nodes only, and every moved node stood in its parent's list before the request. */
  ghost predicate GainedOnlyMoved(s0: Snap, s: Snap, m: seq<(Node, Node?)>) {
    && (forall n, c :: n in s && c in s[n].children && c !in KidsOf(s0, n) ==> On(m, c) != [])
    && (forall c :: c in s0 && On(m, c) != [] ==> s0[c].parent == null || c in KidsOf(s0, s0[c].parent))
  }

  ghost predicate OnlyDrops(s: Snap, s': Snap) {
    forall n, c :: n in s' && c in s'[n].children ==> c in KidsOf(s, n)
  }

  lemma ShrunkGained(s0: Snap, s: Snap, s': Snap, m: seq<(Node, Node?)>)
    requires GainedOnlyMoved(s0, s, m) && OnlyDrops(s, s')
    ensures GainedOnlyMoved(s0, s', m)
  {
    hide On;
  }

  lemma RelinksOnlyDrop(s: Snap, t: Node, other: Node?)
    ensures RelinkFirst(s, t, other).Ok? ==> OnlyDrops(s, RelinkFirst(s, t, other).value)
    ensures RelinkNext(s, t, other).Ok? ==> OnlyDrops(s, RelinkNext(s, t, other).value)
  {
  }

  lemma StagesGain(s0: Snap, a: Applying, p: Plan, m: seq<(Node, Node?)>)
    requires PlanOk(s0.Keys, p) && GainedOnlyMoved(s0, a.s, m)
    ensures GainedOnlyMoved(s0, AfterValues(a, p).s, m)
    ensures GainedOnlyMoved(s0, AfterFirst(a, p).a.s, m)
    ensures GainedOnlyMoved(s0, AfterNext(a, p).a.s, m)
  {
    hide GainedOnlyMoved, WriteValues, RelinkFirst, RelinkNext;
    var b := AfterValues(a, p);
    if p.newValue.Some? {
      WriteValuesFields(a, p.targets, p.newValue.value);
      ShrunkGained(s0, a.s, b.s, m);
    }
    if p.first.Some? {
      RelinksOnlyDrop(b.s, p.targets[0], p.first.value);
      ShrunkGained(s0, b.s, AfterFirst(a, p).a.s, m);
    }
    if p.next.Some? && AfterFirst(a, p).Done? {
      RelinksOnlyDrop(AfterFirst(a, p).a.s, p.targets[0], p.next.value);
      ShrunkGained(s0, AfterFirst(a, p).a.s, AfterNext(a, p).a.s, m);
    }
  }

  lemma MoveGains(s0: Snap, s: Snap, m: seq<(Node, Node?)>, t: Node, np: Node)
    requires GainedOnlyMoved(s0, s, m) && t in s0 && s.Keys == s0.Keys && ParentOf(s, t) == After(s0[t].parent, m, t)
    requires ParentOf(s, t) == null || t in KidsOf(s, ParentOf(s, t))
    ensures GainedOnlyMoved(s0, Moved(s, t, np), m + [(t, np)])
  {
    hide Moved, On;
    var s', m' := Moved(s, t, np), m + [(t, np)];
    forall n, c | n in s' && c in s'[n].children && c !in KidsOf(s0, n)
      ensures On(m', c) != []
    {
      MovedKids(s, t, np, n, c);
      OnSnoc(m, t, np, c);
    }
    forall c | c in s0 && On(m', c) != []
      ensures s0[c].parent == null || c in KidsOf(s0, s0[c].parent)
    {
      OnSnoc(m, t, np, c);
      if On(m, c) == [] {
        assert c == t && ParentOf(s, t) == s0[t].parent;
      }
    }
  }

  lemma MovedKids(s: Snap, t: Node, np: Node, n: Node, c: Node)
    requires c in KidsOf(Moved(s, t, np), n)
    ensures c in KidsOf(s, n) || c == t
  {
    hide Remove;
  }

  lemma PlanGains(s0: Snap, a: Applying, p: Plan, w: seq<(Node, NodeValue)>, m: seq<(Node, Node?)>)
    requires PlanOk(s0.Keys, p) && GainedOnlyMoved(s0, a.s, m) && Tracks(s0, a, w, m) && ApplyPlan(a, p).Done?
    ensures GainedOnlyMoved(s0, ApplyPlan(a, p).a.s, m + MoveWrites(p))
  {
    hide GainedOnlyMoved, Tracks, AfterValues, AfterFirst, Moved, On;
    PlanStages(a, p);
    StagesGain(s0, a, p, m);
    ParentsUntilMove(s0, a, p, w, m);
    hide ApplyPlan, AfterNext;
    if p.newParent.Some? {
      MoveGains(s0, AfterNext(a, p).a.s, m, p.targets[0], p.newParent.value);
    } else {
      assert m + [] == m;
    }
  }

  /** Until a plan's move, parents are what the moves before it set. */
  lemma ParentsUntilMove(s0: Snap, a: Applying, p: Plan, w: seq<(Node, NodeValue)>, m: seq<(Node, Node?)>)
    requires PlanOk(s0.Keys, p) && Tracks(s0, a, w, m)
    ensures var s := AfterNext(a, p).a.s;
            s.Keys == s0.Keys && forall n :: n in s0 ==> ParentOf(s, n) == After(s0[n].parent, m, n)
  {
    hide Olds, On, ValuesLogged, ListsKept, ApplyPlan, Tracks, After;
    var q := p.(newParent := None);
    PlanTracks(s0, a, w, m, q);
    PlanStages(a, q);
    assert AfterNext(a, q) == AfterNext(a, p);
    assert MoveWrites(q) == [] && m + [] == m;
    TracksParents(s0, AfterNext(a, p).a, w + ValueWrites(q), m);
  }

  lemma TracksParents(s0: Snap, a: Applying, w: seq<(Node, NodeValue)>, m: seq<(Node, Node?)>)
    requires Tracks(s0, a, w, m)
    ensures a.s.Keys == s0.Keys && forall n :: n in s0 ==> ParentOf(a.s, n) == After(s0[n].parent, m, n)
  {
    hide Olds, After;
  }

  lemma {:induction false} ApplyGains(s: Snap, plans: seq<Plan>)
    requires PlansOk(s.Keys, plans) && Apply(s, plans).Done?
    ensures GainedOnlyMoved(s, Apply(s, plans).a.s, AllMoves(s.Keys, plans))
  {
    hide ApplyPlan, Tracks;
    if plans != [] {
      var n := |plans| - 1;
      ApplyGains(s, plans[..n]);
      ApplyTracks(s, plans[..n]);
      hide GainedOnlyMoved;
      PlanGains(s, Apply(s, plans[..n]).a, plans[n], AllWrites(plans[..n]), AllMoves(s.Keys, plans[..n]));
    }
  }

  /** What is applied when a request conflicts at its k-th edit. */
  lemma {:induction false} AppliedBefore(s: Snap, plans: seq<Plan>)
    requires PlansOk(s.Keys, plans) && Apply(s, plans).Conflict?
    ensures Apply(s, plans[..FailsAt(s, plans)]).Done?
  {
    var n := |plans| - 1;
    if Apply(s, plans[..n]).Conflict? {
      AppliedBefore(s, plans[..n]);
      assert plans[..n][..FailsAt(s, plans)] == plans[..FailsAt(s, plans)];
    }
  }

  /** Each node's moves put its first parent back, or there are fewer than two. */
  ghost predicate MovesUndo(s: Snap, m: seq<(Node, Node?)>) {
    forall n :: n in s ==> Undoes(s[n].parent, On(m, n))
  }

  /** Planning never moves the root. */
  ghost predicate RootStays(s: Snap, plans: seq<Plan>)
    requires PlansOk(s.Keys, plans)
  {
    forall i :: 0 <= i < |plans| && plans[i].newParent.Some? ==> s[plans[i].targets[0]].parent != null
  }

  lemma {:induction false} MovedHadParent(s: Snap, plans: seq<Plan>, n: Node)
    requires PlansOk(s.Keys, plans) && RootStays(s, plans) && On(AllMoves(s.Keys, plans), n) != []
    ensures n in s && s[n].parent != null
  {
    if plans != [] {
      var k := |plans| - 1;
      OnConcat(AllMoves(s.Keys, plans[..k]), MoveWrites(plans[k]), n);
      if On(AllMoves(s.Keys, plans[..k]), n) != [] {
        MovedHadParent(s, plans[..k], n);
      } else {
        assert plans[k].newParent.Some? && plans[k].targets[0] == n by {
          if plans[k].newParent.Some? {
            OnOne(plans[k].targets[0], plans[k].newParent.value, n);
          }
        }
      }
    }
  }

  lemma OnOne(t: Node, np: Node, n: Node)
    ensures On<Node, Node?>([(t, np)], n) != [] ==> t == n
  {
    OnSnoc<Node, Node?>([], t, np, n);
    assert [] + [(t, np as Node?)] == [(t, np as Node?)];
  }

  /**
   * A request that conflicts leaves a tree that satisfies the invariant exactly when
   * rollback puts back every parent: lists always come back, so a node whose parent does
   * not stands in a list that is no longer its parent's.
   */
  lemma ConflictExact(root: Node, s: Snap, plans: seq<Plan>)
    requires Inv(s, root) && PlansOk(s.Keys, plans) && RootStays(s, plans) && Apply(s, plans).Conflict?
    ensures var (r, m) := (Rollback(Apply(s, plans).a), AllMoves(s.Keys, plans[..FailsAt(s, plans)]));
            && r.Keys == s.Keys
            && (forall n :: n in s ==> r[n].children == s[n].children && r[n].id == s[n].id)
            && (Inv(r, root) <==> MovesUndo(s, m))
  {
    hide Apply, Tracks, Rollback, Inv, FailsAt, AllMoves, AllWrites, On, Olds, Replay, MovesUndo, RootStays,
         GainedOnlyMoved;
    ApplyTracks(s, plans);
    var a, k := Apply(s, plans).a, FailsAt(s, plans);
    var w, m := AllWrites(plans[..k + 1]), AllMoves(s.Keys, plans[..k]);
    var r := Rollback(a);
    RollbackParts(s, a, w, m);
    if MovesUndo(s, m) {
      ParentsBack(s, a, w, m);
      SameShapeKeepsInv(s, r, root);
    } else {
      var n := NotUndone(s, m);
      AppliedBefore(s, plans);
      ApplyGains(s, plans[..k]);
      RootStaysBefore(s, plans, k);
      OnSome(s[n].parent, m, n);
      MovedHadParent(s, plans[..k], n);
      MovedWasListed(s, Apply(s, plans[..k]).a.s, m, n);
      ParentNotBack(s, a, w, m, n);
      NotOwned(s, r, root, n);
    }
  }

  lemma RootStaysBefore(s: Snap, plans: seq<Plan>, k: nat)
    requires PlansOk(s.Keys, plans) && RootStays(s, plans) && k <= |plans|
    ensures RootStays(s, plans[..k])
  {
  }

  lemma NotUndone(s: Snap, m: seq<(Node, Node?)>) returns (n: Node)
    requires !MovesUndo(s, m)
    ensures n in s && !Undoes(s[n].parent, On(m, n))
  {
    n :| n in s && !Undoes(s[n].parent, On(m, n));
  }

  lemma OnSome(b: Node?, m: seq<(Node, Node?)>, n: Node)
    requires !Undoes(b, On(m, n))
    ensures On(m, n) != []
  {
  }

  lemma MovedWasListed(s: Snap, s': Snap, m: seq<(Node, Node?)>, n: Node)
    requires GainedOnlyMoved(s, s', m) && n in s && s[n].parent != null && On(m, n) != []
    ensures n in KidsOf(s, s[n].parent)
  {
  }

  lemma ParentsBack(s: Snap, a: Applying, w: seq<(Node, NodeValue)>, m: seq<(Node, Node?)>)
    requires Tracks(s, a, w, m) && MovesUndo(s, m)
    ensures Replay(Parents(a.s), Olds(Parents(s), m)) == Parents(s)
  {
    hide Olds, Replay, On, Undoes, After;
    ReplayRestores(Parents(a.s), Parents(s), m);
  }

  lemma ParentNotBack(s: Snap, a: Applying, w: seq<(Node, NodeValue)>, m: seq<(Node, Node?)>, n: Node)
    requires Tracks(s, a, w, m) && n in s && !Undoes(s[n].parent, On(m, n))
    ensures n in Replay(Parents(a.s), Olds(Parents(s), m)) && Replay(Parents(a.s), Olds(Parents(s), m))[n] != s[n].parent
  {
    hide Olds, Replay, On, After;
    ReplayAll(Parents(a.s), Parents(s), m);
  }

  lemma NotOwned(s: Snap, r: Snap, root: Node, n: Node)
    requires Inv(s, root) && n in s && s[n].parent != null && n in KidsOf(s, s[n].parent)
    requires r.Keys == s.Keys && r[s[n].parent].children == s[s[n].parent].children
    requires n in Parents(r) && Parents(r)[n] != s[n].parent
    ensures !Inv(r, root)
  {
    hide Acyclic, Distinct;
    assert n in r[s[n].parent].children && r[n].parent != s[n].parent;
  }

  lemma SameShapeKeepsInv(s: Snap, r: Snap, root: Node)
    requires Inv(s, root) && r.Keys == s.Keys && Parents(r) == Parents(s)
    requires forall n :: n in s ==> r[n].children == s[n].children
    ensures Inv(r, root)
    ensures forall n :: n in s ==> r[n].parent == s[n].parent
  {
    hide Acyclic;
    forall n | n in s
      ensures r[n].parent == s[n].parent
    {
      assert Parents(r)[n] == Parents(s)[n];
    }
    ShrunkListsKeepInv(s, r, root);
  }
}
