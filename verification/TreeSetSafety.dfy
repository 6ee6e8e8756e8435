/**
 * What a Set keeps: the tree invariant, step by step and over whole requests; that
 * nothing cut loose comes back; and that a relink drops no more than was planned.
 */
module TreeSetSafety {
  import opened Basics
  import opened WireTypes
  import opened TreeState
  import opened TreeSet
  import opened UndoLog

  // --- each kind of step ----------------------------------------------------------------

  lemma {:induction false} WriteValuesFields(a: Applying, ts: seq<Node>, v: NodeValue)
    ensures var s' := WriteValues(a, ts, v).s;
            && s'.Keys == a.s.Keys
            && forall n :: n in a.s ==> s'[n].parent == a.s[n].parent && s'[n].children == a.s[n].children && s'[n].id == a.s[n].id
  {
    if ts != [] {
      WriteValuesFields(a, ts[..|ts| - 1], v);
    }
  }

  lemma WriteValuesKeepsInv(a: Applying, root: Node, ts: seq<Node>, v: NodeValue)
    requires Inv(a.s, root)
    ensures Inv(WriteValues(a, ts, v).s, root)
  {
    hide WriteValues, Acyclic;
    WriteValuesFields(a, ts, v);
    ShrunkListsKeepInv(a.s, WriteValues(a, ts, v).s, root);
  }

  lemma RelistKeepsInv(s: Snap, root: Node, n: Node, kids: seq<Node>)
    requires Inv(s, root) && NoDup(kids) && forall c :: c in kids ==> c in KidsOf(s, n)
    ensures Inv(WithChildren(s, n, kids), root)
  {
    hide Acyclic;
    ShrunkListsKeepInv(s, WithChildren(s, n, kids), root);
  }

  lemma DistinctKids(s: Snap, root: Node, n: Node)
    requires Inv(s, root)
    ensures NoDup(KidsOf(s, n))
  {
  }

  lemma RelinkFirstKeepsInv(s: Snap, root: Node, t: Node, first: Node?)
    requires Inv(s, root) && RelinkFirst(s, t, first).Ok?
    ensures Inv(RelinkFirst(s, t, first).value, root)
  {
    hide Inv, WithChildren;
    DistinctKids(s, root, t);
    var kids := KidsOf(s, t);
    RelistKeepsInv(s, root, t, if first == null then [] else kids[IndexOf(kids, first)..]);
  }

  /** newNextSibling lies after its target in the list they share. */
  predicate Forward(s: Snap, t: Node, next: Node?) {
    var parent := ParentOf(s, t);
    next != null && parent != null ==> IndexOf(KidsOf(s, parent), t) < IndexOf(KidsOf(s, parent), next)
  }

  lemma SpliceNoDup(kids: seq<Node>, i: nat, j: nat)
    requires NoDup(kids) && i < |kids| && j < |kids|
    ensures NoDup(kids[..i + 1] + kids[j..]) <==> i < j
  {
    var r := kids[..i + 1] + kids[j..];
    if i >= j {
      assert r[j] == kids[j] && r[i + 1] == kids[j];
      assert !NoDup(r);
    }
  }

  /**
   * A relinked next sibling keeps the invariant exactly when it lies after the
   * target; at or before it, list entries come out doubled.
   */
  lemma RelinkNextKeepsInv(s: Snap, root: Node, t: Node, next: Node?)
    requires Inv(s, root) && RelinkNext(s, t, next).Ok?
    ensures Inv(RelinkNext(s, t, next).value, root) <==> Forward(s, t, next)
  {
    hide Acyclic, Closed, Owned, Distinct;
    var parent := ParentOf(s, t);
    var kids := KidsOf(s, parent);
    var i := IndexOf(kids, t);
    DistinctKids(s, root, parent);
    if next == null {
      RelistKeepsInv(s, root, parent, kids[..i + 1]);
    } else {
      var j := IndexOf(kids, next);
      SpliceNoDup(kids, i, j);
      if i < j {
        RelistKeepsInv(s, root, parent, kids[..i + 1] + kids[j..]);
      } else {
        DistinctFails(WithChildren(s, parent, kids[..i + 1] + kids[j..]), parent);
      }
    }
  }

  lemma DistinctFails(s: Snap, n: Node)
    requires n in s && !NoDup(s[n].children)
    ensures !Distinct(s)
  {
  }

  /** A node with a backward sibling relink: its list then holds entries twice. */
  lemma BackwardRelinkDuplicates(root: Node, x: Node, y: Node, v: NodeValue)
    requires root != x && root != y && x != y
    ensures var s: Snap := map[root := Rec(v, null, [x, y], 0), x := Rec(v, root, [], 1), y := Rec(v, root, [], 2)];
            Inv(s, root) && RelinkNext(s, y, x) == Ok(s[root := Rec(v, null, [x, y, x, y], 0)])
  {
    var s: Snap := map[root := Rec(v, null, [x, y], 0), x := Rec(v, root, [], 1), y := Rec(v, root, [], 2)];
    assert Climbs(s, root, 0) && Climbs(s, x, 1) && Climbs(s, y, 1);
    assert [x, y][..2] + [x, y][0..] == [x, y, x, y];
    assert IndexOf([x, y], y) == 1;
  }

  // --- whole requests ---------------------------------------------------------------------

  /** The stages of one plan, each begun in the state the one before it left. */
  function AfterValues(a: Applying, p: Plan): Applying {
    if p.newValue.Some? then WriteValues(a, p.targets, p.newValue.value) else a
  }

  function AfterFirst(a: Applying, p: Plan): Outcome
    requires p.Structural() ==> |p.targets| == 1
  {
    if p.first.Some? then ApplyFirst(AfterValues(a, p), p.targets[0], p.first.value) else Done(AfterValues(a, p))
  }

  function AfterNext(a: Applying, p: Plan): Outcome
    requires p.Structural() ==> |p.targets| == 1
  {
    var o := AfterFirst(a, p);
    if o.Done? && p.next.Some? then ApplyNext(o.a, p.targets[0], p.next.value) else o
  }

  lemma PlanStages(a: Applying, p: Plan)
    requires p.Structural() ==> |p.targets| == 1
    ensures var o := AfterNext(a, p);
            ApplyPlan(a, p) == if o.Done? && p.newParent.Some? then ApplyMove(o.a, p.targets[0], p.newParent.value) else o
  {
  }

  /** A plan as it is met: its next sibling lies ahead, its move makes no circle and is not of the root. */
  ghost predicate CarefulPlan(root: Node, a: Applying, p: Plan)
    requires p.Structural() ==> |p.targets| == 1
  {
    && (p.next.Some? && AfterNext(a, p).Done? ==> Forward(AfterFirst(a, p).a.s, p.targets[0], p.next.value))
    && (p.newParent.Some? && AfterNext(a, p).Done? ==>
          && p.targets[0] != root
          && Acyclic(AfterNext(a, p).a.s)
          && p.newParent.value !in Subtree(AfterNext(a, p).a.s, p.targets[0]))
  }

  ghost predicate Careful(root: Node, s: Snap, plans: seq<Plan>)
    requires PlansOk(s.Keys, plans)
  {
    plans != [] ==>
      var n := |plans| - 1;
      && Careful(root, s, plans[..n])
      && (Apply(s, plans[..n]).Done? ==> CarefulPlan(root, Apply(s, plans[..n]).a, plans[n]))
  }

  lemma KeysKept(s0: Snap, a: Applying, p: Plan)
    requires a.s.Keys == s0.Keys && PlanOk(s0.Keys, p)
    ensures AfterValues(a, p).s.Keys == s0.Keys && AfterFirst(a, p).a.s.Keys == s0.Keys && AfterNext(a, p).a.s.Keys == s0.Keys
  {
    hide WriteValues, ApplyFirst, ApplyNext;
    if p.newValue.Some? {
      WriteValuesFields(a, p.targets, p.newValue.value);
    }
    if p.first.Some? {
      RelinksKeepKeys(AfterValues(a, p), p.targets[0], p.first.value);
    }
    if p.next.Some? {
      RelinksKeepKeys(AfterFirst(a, p).a, p.targets[0], p.next.value);
    }
  }

  lemma RelinksKeepKeys(a: Applying, t: Node, other: Node?)
    ensures ApplyFirst(a, t, other).a.s.Keys == a.s.Keys && ApplyNext(a, t, other).a.s.Keys == a.s.Keys
  {
    hide IndexOf;
    var r := RelinkFirst(a.s, t, other);
    assert r.Ok? ==> r.value.Keys == a.s.Keys;
    var q := RelinkNext(a.s, t, other);
    assert q.Ok? ==> q.value.Keys == a.s.Keys;
    hide RelinkFirst, RelinkNext;
  }

  lemma StagesKeepInv(root: Node, a: Applying, p: Plan)
    requires (p.Structural() ==> |p.targets| == 1) && Inv(a.s, root) && CarefulPlan(root, a, p)
    ensures Inv(AfterValues(a, p).s, root)
    ensures AfterFirst(a, p).Done? ==> Inv(AfterFirst(a, p).a.s, root)
    ensures AfterNext(a, p).Done? ==> Inv(AfterNext(a, p).a.s, root)
  {
    hide Inv, WriteValues, RelinkFirst, RelinkNext, Forward;
    if p.newValue.Some? {
      WriteValuesKeepsInv(a, root, p.targets, p.newValue.value);
    }
    var o := AfterFirst(a, p);
    if o.Done? {
      if p.first.Some? {
        RelinkFirstKeepsInv(AfterValues(a, p).s, root, p.targets[0], p.first.value);
      }
      if p.next.Some? && AfterNext(a, p).Done? {
        RelinkNextKeepsInv(o.a.s, root, p.targets[0], p.next.value);
      }
    }
  }

  /** Of one plan that succeeds, the relinks keep the invariant exactly when the next sibling lies ahead. */
  lemma RelinksExact(root: Node, a: Applying, p: Plan)
    requires PlanOk(a.s.Keys, p) && Inv(a.s, root) && AfterNext(a, p).Done?
    ensures var ahead := p.next.Some? ==> Forward(AfterFirst(a, p).a.s, p.targets[0], p.next.value);
            && (Inv(AfterNext(a, p).a.s, root) <==> ahead)
            && (!ahead ==> TwiceInItsList(AfterNext(a, p).a.s, p.targets[0]))
    ensures AfterNext(a, p).a.s.Keys == a.s.Keys
  {
    hide Inv, WriteValues, RelinkFirst, RelinkNext, Forward, TwiceInItsList;
    hide Owned, Distinct;
    KeysKept(a.s, a, p);
    if p.newValue.Some? {
      WriteValuesKeepsInv(a, root, p.targets, p.newValue.value);
    }
    if p.first.Some? {
      RelinkFirstKeepsInv(AfterValues(a, p).s, root, p.targets[0], p.first.value);
    }
    if p.next.Some? {
      RelinkNextKeepsInv(AfterFirst(a, p).a.s, root, p.targets[0], p.next.value);
      if !Forward(AfterFirst(a, p).a.s, p.targets[0], p.next.value) {
        InvHasShape(AfterFirst(a, p).a.s, root);
        BackwardTwice(AfterFirst(a, p).a.s, p.targets[0], p.next.value);
      }
    }
  }

  /** t stands at two places of its parent's list. */
  ghost predicate TwiceInItsList(s: Snap, t: Node) {
    && ParentOf(s, t) != null && ParentOf(s, t) in s
    && exists i, j :: 0 <= i < j < |KidsOf(s, ParentOf(s, t))|
         && KidsOf(s, ParentOf(s, t))[i] == t && KidsOf(s, ParentOf(s, t))[j] == t
  }

  lemma BackwardTwice(s: Snap, t: Node, next: Node?)
    requires Closed(s) && RelinkNext(s, t, next).Ok? && !Forward(s, t, next)
    ensures TwiceInItsList(RelinkNext(s, t, next).value, t)
  {
    var parent := ParentOf(s, t);
    var kids := KidsOf(s, parent);
    var i, j := IndexOf(kids, t), IndexOf(kids, next);
    var s' := RelinkNext(s, t, next).value;
    var kids' := kids[..i + 1] + kids[j..];
    assert s' == WithChildren(s, parent, kids');
    hide IndexOf, RelinkNext;
    assert kids'[i] == t && kids'[i + 1 + (i - j)] == kids[i];
    assert ParentOf(s', t) == parent && KidsOf(s', parent) == kids';
  }

  lemma {:induction false} RemoveLeavesSecond(xs: seq<Node>, t: Node, i: nat, j: nat)
    requires i < j < |xs| && xs[i] == t && xs[j] == t
    ensures t in Remove(xs, t)
  {
    if xs[0] == t {
      assert xs[1..][j - 1] == t;
    } else {
      RemoveLeavesSecond(xs[1..], t, i - 1, j - 1);
    }
  }

  lemma InvHasShape(s: Snap, root: Node)
    requires Inv(s, root)
    ensures Shape(s)
  {
  }

  /** A node that stands twice in its list is still there once after a move, wherever it goes. */
  lemma MovedTwiceListed(s: Snap, t: Node, np: Node)
    requires TwiceInItsList(s, t) && np in s
    ensures !Shape(Moved(s, t, np))
  {
    var op := ParentOf(s, t);
    var kids := KidsOf(s, op);
    var i, j :| 0 <= i < j < |kids| && kids[i] == t && kids[j] == t;
    RemoveLeavesSecond(kids, t, i, j);
    MovedRecords(s, t, np);
    var s' := Moved(s, t, np);
    hide Moved, Remove, Distinct;
    if np == op {
      LastTwice(Remove(kids, t), t);
      DistinctFails(s', op);
    } else {
      assert t in MovedList(s, t, np, op) && s'[t].parent == np;
    }
  }

  lemma MovedTwiceBreaks(s: Snap, root: Node, t: Node, np: Node)
    requires TwiceInItsList(s, t) && np in s
    ensures !Inv(Moved(s, t, np), root)
  {
    hide Moved, TwiceInItsList, Closed, Owned, Distinct, Acyclic;
    MovedTwiceListed(s, t, np);
  }

  lemma LastTwice(xs: seq<Node>, t: Node)
    requires t in xs
    ensures !NoDup(xs + [t])
  {
    var i :| 0 <= i < |xs| && xs[i] == t;
    assert (xs + [t])[i] == (xs + [t])[|xs|];
  }

  lemma MovedRoot(s: Snap, root: Node, np: Node)
    requires Inv(s, root) && np in s
    ensures !Inv(Moved(s, root, np), root)
  {
    hide Closed, Owned, Distinct, Acyclic;
    MovedParts(s, root, np);
    hide Moved;
  }

  /** One plan that succeeds keeps the invariant exactly when it is careful. */
  lemma PlanExact(root: Node, a: Applying, p: Plan)
    requires PlanOk(a.s.Keys, p) && Inv(a.s, root) && ApplyPlan(a, p).Done?
    ensures Inv(ApplyPlan(a, p).a.s, root) <==> CarefulPlan(root, a, p)
  {
    PlanStages(a, p);
    hide ApplyPlan, AfterFirst, Moved, Subtree, Forward, TwiceInItsList, Inv;
    var o := AfterNext(a, p);
    assert o.Done?;
    RelinksExact(root, a, p);
    hide AfterNext;
    if p.newParent.Some? {
      var t, np := p.targets[0], p.newParent.value;
      assert ApplyPlan(a, p).a.s == Moved(o.a.s, t, np);
      if !Inv(o.a.s, root) {
        MovedTwiceBreaks(o.a.s, root, t, np);
      } else if t == root {
        MovedRoot(o.a.s, root, np);
      } else {
        RootHasNoParent(o.a.s, root);
        MovedKeepsInv(o.a.s, root, t, np);
      }
    }
  }

  /** The tree after each applied prefix of the request satisfies the invariant. */
  ghost predicate InvAlong(root: Node, s: Snap, plans: seq<Plan>)
    requires PlansOk(s.Keys, plans)
  {
    plans != [] ==>
      && InvAlong(root, s, plans[..|plans| - 1])
      && Inv(Apply(s, plans).a.s, root)
  }

  /** A successful request keeps the invariant at every one of its edits exactly when its plans are careful as they are met. */
  lemma {:induction false} ApplyKeepsInv(root: Node, s: Snap, plans: seq<Plan>)
    requires PlansOk(s.Keys, plans) && Inv(s, root) && Apply(s, plans).Done?
    ensures Apply(s, plans).a.s.Keys == s.Keys
    ensures InvAlong(root, s, plans) <==> Careful(root, s, plans)
    ensures Careful(root, s, plans) ==> Inv(Apply(s, plans).a.s, root)
  {
    hide Inv, CarefulPlan, ApplyPlan;
    ApplyKeepsKeys(s, plans);
    if plans != [] {
      var n := |plans| - 1;
      ApplyKeepsInv(root, s, plans[..n]);
      if Careful(root, s, plans[..n]) {
        PlanExact(root, Apply(s, plans[..n]).a, plans[n]);
      }
    }
  }

  lemma ApplyKeepsKeys(s: Snap, plans: seq<Plan>)
    requires PlansOk(s.Keys, plans)
    ensures Apply(s, plans).a.s.Keys == s.Keys
    ensures forall n :: n in s ==> Apply(s, plans).a.s[n].id == s[n].id
  {
    hide Apply, PlansOk;
    ApplySameNodes(s, plans);
  }

  lemma ApplySameNodes(s: Snap, plans: seq<Plan>)
    requires PlansOk(s.Keys, plans)
    ensures SameNodes(s, Apply(s, plans).a.s)
  {
    hide Apply, AllWrites, AllMoves, Tracks, SameNodes, FailsAt;
    ApplyTracks(s, plans);
    var o := Apply(s, plans);
    if o.Done? {
      TracksSameNodes(s, o.a, AllWrites(plans), AllMoves(s.Keys, plans));
    } else {
      var k := FailsAt(s, plans);
      TracksSameNodes(s, o.a, AllWrites(plans[..k + 1]), AllMoves(s.Keys, plans[..k]));
    }
  }

  lemma TracksSameNodes(s0: Snap, a: Applying, w: seq<(Node, NodeValue)>, m: seq<(Node, Node?)>)
    requires Tracks(s0, a, w, m)
    ensures SameNodes(s0, a.s)
  {
  }

  /** A plan that only moves a node still in its parent's list. */
  lemma MoveAlone(a: Applying, t: Node, np: Node)
    requires ParentOf(a.s, t) != null && t in KidsOf(a.s, ParentOf(a.s, t))
    ensures var o := ApplyPlan(a, Plan([t], None, None, None, Some(np))); o.Done? && o.a.s == Moved(a.s, t, np)
  {
    hide Moved;
  }

  // --- nothing comes back -------------------------------------------------------------------

  /** R holds every child of its members. */
  ghost predicate ClosedUnder(s: Snap, R: set<Node>) {
    forall p, c :: p in R && c in KidsOf(s, p) ==> c in R
  }

  lemma RelistStaysClosed(s: Snap, R: set<Node>, n: Node, kids: seq<Node>)
    requires ClosedUnder(s, R) && n in R ==> forall c :: c in kids ==> c in R
    requires ClosedUnder(s, R)
    ensures ClosedUnder(WithChildren(s, n, kids), R)
  {
  }

  lemma MovedStaysClosed(s: Snap, R: set<Node>, t: Node, np: Node)
    requires ClosedUnder(s, R) && t in R
    ensures ClosedUnder(Moved(s, t, np), R)
  {
    var op := ParentOf(s, t);
    var s1 := if op == null then s else WithChildren(s, op, Remove(KidsOf(s, op), t));
    assert ClosedUnder(s1, R);
    var s2 := WithParent(s1, t, np);
    assert ClosedUnder(s2, R);
    RelistStaysClosed(s2, R, np, KidsOf(s2, np) + [t]);
  }

  lemma RelinksStayClosed(s: Snap, R: set<Node>, t: Node, other: Node?)
    requires ClosedUnder(s, R)
    ensures RelinkFirst(s, t, other).Ok? ==> ClosedUnder(RelinkFirst(s, t, other).value, R)
    ensures RelinkNext(s, t, other).Ok? ==> ClosedUnder(RelinkNext(s, t, other).value, R)
  {
  }

  lemma WritesStayClosed(a: Applying, R: set<Node>, ts: seq<Node>, v: NodeValue)
    requires ClosedUnder(a.s, R)
    ensures ClosedUnder(WriteValues(a, ts, v).s, R)
  {
    hide WriteValues;
    WriteValuesFields(a, ts, v);
  }

  lemma PlanStaysClosed(a: Applying, R: set<Node>, p: Plan)
    requires (p.Structural() ==> |p.targets| == 1) && ClosedUnder(a.s, R)
    requires forall t :: t in p.targets ==> t in R
    ensures ClosedUnder(ApplyPlan(a, p).a.s, R)
  {
    hide ApplyFirst, ApplyNext, ApplyMove, WriteValues, ClosedUnder, ApplyPlan;
    PlanStages(a, p);
    if p.newValue.Some? {
      WritesStayClosed(a, R, p.targets, p.newValue.value);
    }
    if p.first.Some? {
      StepsStayClosed(AfterValues(a, p), R, p.targets[0], p.first.value);
    }
    if p.next.Some? {
      StepsStayClosed(AfterFirst(a, p).a, R, p.targets[0], p.next.value);
    }
    if p.newParent.Some? {
      StepsStayClosed(AfterNext(a, p).a, R, p.targets[0], p.newParent.value);
    }
  }

  lemma StepsStayClosed(a: Applying, R: set<Node>, t: Node, other: Node?)
    requires ClosedUnder(a.s, R) && t in R
    ensures ClosedUnder(ApplyFirst(a, t, other).a.s, R) && ClosedUnder(ApplyNext(a, t, other).a.s, R)
    ensures other != null ==> ClosedUnder(ApplyMove(a, t, other).a.s, R)
  {
    hide ClosedUnder, RelinkFirst, RelinkNext, Moved, IndexOf;
    RelinksStayClosed(a.s, R, t, other);
    if other != null {
      MovedStaysClosed(a.s, R, t, other);
    }
  }

  lemma {:induction false} ApplyStaysClosed(s: Snap, R: set<Node>, plans: seq<Plan>)
    requires PlansOk(s.Keys, plans) && ClosedUnder(s, R)
    requires forall i, t :: 0 <= i < |plans| && t in plans[i].targets ==> t in R
    ensures ClosedUnder(Apply(s, plans).a.s, R)
  {
    if plans != [] {
      hide ApplyPlan, ClosedUnder;
      var n := |plans| - 1;
      ApplyStaysClosed(s, R, plans[..n]);
      if Apply(s, plans[..n]).Done? {
        PlanStaysClosed(Apply(s, plans[..n]).a, R, plans[n]);
      }
    }
  }

  /**
   * Whatever a Set does, careful or not, a node reachable afterwards was reachable
   * before: nothing that was cut loose comes back. Its targets are reachable because
   * expressions are evaluated from the root.
   */
  lemma SetBringsNothingBack(root: Node, s: Snap, plans: seq<Plan>)
    requires PlansOk(s.Keys, plans) && Inv(s, root)
    requires forall i, t :: 0 <= i < |plans| && t in plans[i].targets ==> t in ReachSet(s, root)
    ensures ReachSet(Apply(s, plans).a.s, root) <= ReachSet(s, root)
    ensures Apply(s, plans).Conflict? ==> ReachSet(Rollback(Apply(s, plans).a), root) == ReachSet(s, root)
  {
    hide ClosedUnder, ReachSet, Apply, Tracks;
    var R := ReachSet(s, root);
    var o := Apply(s, plans);
    ReachSetClosed(s, root);
    ApplyStaysClosed(s, R, plans);
    ClosedReach(s, o.a.s, root);
    if o.Conflict? {
      ApplyTracks(s, plans);
      var k := FailsAt(s, plans);
      RollbackParts(s, o.a, AllWrites(plans[..k + 1]), AllMoves(s.Keys, plans[..k]));
      SameListsSameReach(s, Rollback(o.a), root);
    }
  }

  lemma ReachSetClosed(s: Snap, root: Node)
    requires Inv(s, root)
    ensures ClosedUnder(s, ReachSet(s, root))
  {
    forall p, c | p in ReachSet(s, root) && c in KidsOf(s, p)
      ensures c in ReachSet(s, root)
    {
      BelowStep(s, root, p, c);
    }
  }

  lemma ClosedReach(s: Snap, s': Snap, root: Node)
    requires root in s && ClosedUnder(s', ReachSet(s, root))
    ensures ReachSet(s', root) <= ReachSet(s, root)
  {
    hide ReachSet;
    ReachShrinks(s, s', root);
  }

  lemma SameListsSameReach(s: Snap, s': Snap, root: Node)
    requires root in s && s.Keys == s'.Keys && forall n :: n in s ==> s'[n].children == s[n].children
    requires Closed(s)
    ensures ReachSet(s', root) == ReachSet(s, root)
  {
    forall p, c | p in s' && p in ReachSet(s, root) && c in s'[p].children
      ensures c in ReachSet(s, root)
    {
      BelowStep(s, root, p, c);
    }
    ReachShrinks(s, s', root);
    forall p, c | p in s && p in ReachSet(s', root) && c in s[p].children
      ensures c in ReachSet(s', root)
    {
      BelowStep(s', root, p, c);
    }
    ReachShrinks(s', s, root);
  }
}
