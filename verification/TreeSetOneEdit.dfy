/**
 * The whole outcome of a Set of one structural edit: the tree to the last record, the
 * report, and the one conflict it can meet (goimpl/internal/tree/tree.go:814-857,
 * 923-962 and 1086-1131).
 */
module TreeSetOneEdit {
  import opened Basics
  import opened WireTypes
  import opened Expression
  import opened Authz
  import opened TreeState
  import opened TreeRead
  import opened TreeSet
  import opened TreeSetSafety
  import opened TreePlan
  import opened TreeSetEdits
  import opened UndoLog

  /** Only the list of n is another one. */
  ghost predicate OnlyList(s: Snap, s': Snap, n: Node, kids: seq<Node>) {
    && s'.Keys == s.Keys && n in s && s'[n] == s[n].(children := kids)
    && forall m :: m in s && m != n ==> s'[m] == s[m]
  }

  lemma OneKept(env: Engine, s: Snap, root: Node, staging: Node?, auth: Option<Checker>, e: SetEdit) returns (p: Plan)
    requires Inv(s, root) && Plannable(env, s, root, staging, auth, e) && Structural(e) && e.newValue.None?
    ensures PlanEdit(env, s, root, staging, auth, e) == Ok(p) && PlanOk(s.Keys, p) && TargetFits(env, s, root, auth, e)
    ensures var t := TargetOf(env, s, root, auth, e);
            && p.targets == [t] && p.newValue.None?
            && t in s && Grounded(s, t) && t != root && s[t].parent != null && t in KidsOf(s, s[t].parent)
    ensures (p.first.Some? <==> e.newFirstChild.Some?) && (p.next.Some? <==> e.newNextSibling.Some?)
    ensures p.newParent.Some? <==> e.newParent.Some?
    ensures e.newFirstChild.Some? ==> PointerTo(env, s, root, auth, e.newFirstChild.value) == Some(p.first.value)
    ensures e.newNextSibling.Some? ==> PointerTo(env, s, root, auth, e.newNextSibling.value) == Some(p.next.value)
    ensures e.newParent.Some? ==> LedTo(env, s, root, auth, e.newParent.value) == Some(p.newParent.value)
  {
    hide Inv, PlanEdit, Plannable, Evaluate, Parse, ResolvePointer, ResolveOne, PointerTo, ReachSet, DeleteAllowed,
         Grounded, May;
    PlansExactly(env, s, root, staging, auth, e);
    PlanKeeps(env, s, root, staging, auth, e);
    PlanEditSound(env, s, root, staging, auth, e);
    p := PlanEdit(env, s, root, staging, auth, e).value;
    TargetParses(env, e.target);
    MatchesInside(env, s, root, auth, Parse(env.re, e.target).value);
    if e.newFirstChild.Some? {
      PointsTo(env, s, root, auth, e.newFirstChild.value);
    }
    if e.newNextSibling.Some? {
      PointsTo(env, s, root, auth, e.newNextSibling.value);
    }
    if e.newParent.Some? {
      ResolvesTo(env, s, root, auth, e.newParent.value);
    }
  }

  /** A Set of one edit applies its plan to the tree as it is, or puts the tree back. */
  lemma OneApplied(env: Engine, s: Snap, root: Node, staging: Node?, auth: Option<Checker>, e: SetEdit, p: Plan)
    requires Inv(s, root) && PlanEdit(env, s, root, staging, auth, e) == Ok(p) && PlanOk(s.Keys, p)
    requires p.newValue.None?
    ensures var o := ApplyPlan(Start(s), p);
            SetAs(env, s, root, staging, auth, [e]) == if o.Done? then (o.a.s, Ok(o.a.touched)) else (s, Err(o.error))
  {
    hide Inv, PlanEdit, ApplyPlan, Rollback;
    assert [e][..0] == [] && [p][..0] == [] && [] + [p] == [p];
    assert PlanAll(env, s, root, staging, auth, []) == Ok([]);
    assert PlanAll(env, s, root, staging, auth, [e]) == Ok([p]);
    assert Apply(s, []) == Done(Start(s));
    if Apply(s, [p]).Conflict? {
      ConflictLeavesTreeUnchanged(s, [p]);
      assert [p][..1] == [p];
      assert AllWrites([]) == [] && AllMoves(s.Keys, []) == [];
      assert AllWrites([p]) == [];
    }
  }

  /** newFirstChild: the list begins with the node named, or is empty; nothing else changes. */
  lemma FirstChildEdit(env: Engine, s: Snap, root: Node, staging: Node?, auth: Option<Checker>, e: SetEdit)
    requires Inv(s, root) && Plannable(env, s, root, staging, auth, e) && e.newFirstChild.Some?
    requires e.newValue.None? && e.newNextSibling.None? && e.newParent.None?
    ensures var (s', r) := SetAs(env, s, root, staging, auth, [e]);
            var t := TargetOf(env, s, root, auth, e);
            var c := PointerTo(env, s, root, auth, e.newFirstChild.value).value;
            if c == null then OnlyList(s, s', t, []) && r == Ok([t])
            else if ParentOf(s, c) != t then s' == s && r == Err(NotAChild)
            else
              && r == Ok([t])
              && exists k :: 0 <= k < |KidsOf(s, t)| && KidsOf(s, t)[k] == c && OnlyList(s, s', t, KidsOf(s, t)[k..])
  {
    hide Inv, Plannable, SetAs, TargetOf, PointerTo, PlanEdit, Grounded, LedTo, TargetFits, ApplyPlan, OnlyList;
    var p := OneKept(env, s, root, staging, auth, e);
    OneApplied(env, s, root, staging, auth, e, p);
    LedIsListed(env, s, root, auth, e.newFirstChild.value);
    FirstApplied(s, TargetOf(env, s, root, auth, e), p.first.value);
  }

  lemma FirstApplied(s: Snap, t: Node, c: Node?)
    requires t in s && (c != null ==> c in s && s[c].parent != null && c in KidsOf(s, s[c].parent))
    ensures var o := ApplyPlan(Start(s), Plan([t], None, Some(c), None, None));
            if c == null then o.Done? && OnlyList(s, o.a.s, t, []) && o.a.touched == [t]
            else if ParentOf(s, c) != t then o.Conflict? && o.error == NotAChild
            else
              && o.Done? && o.a.touched == [t]
              && exists k :: 0 <= k < |KidsOf(s, t)| && KidsOf(s, t)[k] == c && OnlyList(s, o.a.s, t, KidsOf(s, t)[k..])
  {
    assert [] + [t] == [t];
    var k := IndexOf(KidsOf(s, t), c);
    hide IndexOf;
    if c != null && ParentOf(s, c) == t {
      assert OnlyList(s, ApplyPlan(Start(s), Plan([t], None, Some(c), None, None)).a.s, t, KidsOf(s, t)[k..]);
    }
  }

  lemma LedIsListed(env: Engine, s: Snap, root: Node, auth: Option<Checker>, p: NodePointer)
    requires Inv(s, root)
    ensures var r := PointerTo(env, s, root, auth, p);
            r.Some? && r.value != null ==>
              r.value in s && s[r.value].parent != null && r.value in KidsOf(s, s[r.value].parent)
  {
    hide Inv, Evaluate, Parse, Grounded;
    if p.AbsolutePointer? && LedTo(env, s, root, auth, p.expr).Some? {
      TargetParses(env, p.expr);
      MatchesInside(env, s, root, auth, Parse(env.re, p.expr).value);
    }
  }

  /** newNextSibling: the node named, and what follows it, comes right behind the target, or nothing does. */
  lemma NextSiblingEdit(env: Engine, s: Snap, root: Node, staging: Node?, auth: Option<Checker>, e: SetEdit)
    requires Inv(s, root) && Plannable(env, s, root, staging, auth, e) && e.newNextSibling.Some?
    requires e.newValue.None? && e.newFirstChild.None? && e.newParent.None?
    ensures var (s', r) := SetAs(env, s, root, staging, auth, [e]);
            var t := TargetOf(env, s, root, auth, e);
            var c := PointerTo(env, s, root, auth, e.newNextSibling.value).value;
            && t in s && s[t].parent != null
            && var kids := KidsOf(s, s[t].parent);
               if c == null then
                 && r == Ok([t])
                 && exists i :: 0 <= i < |kids| && kids[i] == t && OnlyList(s, s', s[t].parent, kids[..i + 1])
               else if ParentOf(s, c) != s[t].parent then s' == s && r == Err(NotAChild)
               else
                 && r == Ok([t])
                 && exists i, k :: 0 <= i < |kids| && kids[i] == t && 0 <= k < |kids| && kids[k] == c
                                   && OnlyList(s, s', s[t].parent, kids[..i + 1] + kids[k..])
  {
    hide Inv, Plannable, SetAs, TargetOf, PointerTo, PlanEdit, Grounded, LedTo, TargetFits, ApplyPlan, OnlyList;
    var p := OneKept(env, s, root, staging, auth, e);
    OneApplied(env, s, root, staging, auth, e, p);
    LedIsListed(env, s, root, auth, e.newNextSibling.value);
    ParentInside(s, root, TargetOf(env, s, root, auth, e));
    NextApplied(s, TargetOf(env, s, root, auth, e), p.next.value);
  }

  lemma NextApplied(s: Snap, t: Node, c: Node?)
    requires t in s && s[t].parent != null && s[t].parent in s && t in KidsOf(s, s[t].parent)
    requires c != null ==> c in s && s[c].parent != null && c in KidsOf(s, s[c].parent)
    ensures var o := ApplyPlan(Start(s), Plan([t], None, None, Some(c), None));
            var kids := KidsOf(s, s[t].parent);
            if c == null then
              && o.Done? && o.a.touched == [t]
              && exists i :: 0 <= i < |kids| && kids[i] == t && OnlyList(s, o.a.s, s[t].parent, kids[..i + 1])
            else if ParentOf(s, c) != s[t].parent then o.Conflict? && o.error == NotAChild
            else
              && o.Done? && o.a.touched == [t]
              && exists i, k :: 0 <= i < |kids| && kids[i] == t && 0 <= k < |kids| && kids[k] == c
                                && OnlyList(s, o.a.s, s[t].parent, kids[..i + 1] + kids[k..])
  {
    hide IndexOf, ApplyPlan, RelinkNext, WithChildren, OnlyList, Start;
    assert [] + [t] == [t];
    var kids := KidsOf(s, s[t].parent);
    var i, k := IndexOf(kids, t), IndexOf(kids, c);
    ApplyNextIs(s, t, c);
    var r := RelinkNext(s, t, c);
    if r.Ok? {
      OnlyListRelinked(s, s[t].parent, if c == null then kids[..i + 1] else kids[..i + 1] + kids[k..]);
    }
  }

  lemma OnlyListRelinked(s: Snap, n: Node, kids: seq<Node>)
    requires n in s
    ensures OnlyList(s, WithChildren(s, n, kids), n, kids)
  {
  }

  /** A plan of one newNextSibling is one relink. */
  lemma ApplyNextIs(s: Snap, t: Node, c: Node?)
    requires t in s && s[t].parent != null && s[t].parent in s && t in KidsOf(s, s[t].parent)
    requires c != null ==> c in s && s[c].parent != null && c in KidsOf(s, s[c].parent)
    ensures var o := ApplyPlan(Start(s), Plan([t], None, None, Some(c), None));
            var (p, kids, r) := (s[t].parent, KidsOf(s, s[t].parent), RelinkNext(s, t, c));
            && (if r.Ok? then o.Done? && o.a.s == r.value && o.a.touched == [] + [t] else o.Conflict? && o.error == r.error)
            && 0 <= IndexOf(kids, t) < |kids|
            && (c == null ==> r == Ok(WithChildren(s, p, kids[..IndexOf(kids, t) + 1])))
            && (c != null && ParentOf(s, c) != p ==> r == Err(NotAChild))
            && (c != null && ParentOf(s, c) == p ==>
                  && 0 <= IndexOf(kids, c) < |kids|
                  && r == Ok(WithChildren(s, p, kids[..IndexOf(kids, t) + 1] + kids[IndexOf(kids, c)..])))
  {
    hide WithChildren;
  }

  /** newParent: the target leaves its list and comes last in that of the node named, which is its parent from then on. */
  lemma ParentEdit(env: Engine, s: Snap, root: Node, staging: Node?, auth: Option<Checker>, e: SetEdit)
    requires Inv(s, root) && Plannable(env, s, root, staging, auth, e) && e.newParent.Some?
    requires e.newValue.None? && e.newFirstChild.None? && e.newNextSibling.None?
    ensures var (s', r) := SetAs(env, s, root, staging, auth, [e]);
            var t := TargetOf(env, s, root, auth, e);
            var d := LedTo(env, s, root, auth, e.newParent.value).value;
            && t in s && s[t].parent != null && s'.Keys == s.Keys && d in s && r == Ok([t])
            && s'[t].parent == d
            && (forall n :: n in s ==>
                  && s'[n].value == s[n].value && s'[n].id == s[n].id && (n != t ==> s'[n].parent == s[n].parent)
                  && (n != d && n != s[t].parent ==> s'[n].children == s[n].children))
            && exists i :: 0 <= i < |KidsOf(s, s[t].parent)| && KidsOf(s, s[t].parent)[i] == t
                 && var left := KidsOf(s, s[t].parent)[..i] + KidsOf(s, s[t].parent)[i + 1..];
                    if d == s[t].parent then s'[d].children == left + [t]
                    else s'[s[t].parent].children == left && s'[d].children == s[d].children + [t]
  {
    hide Inv, Plannable, SetAs, TargetOf, PlanEdit, Grounded, LedTo, TargetFits, ApplyPlan;
    var p := OneKept(env, s, root, staging, auth, e);
    OneApplied(env, s, root, staging, auth, e, p);
    ParentInside(s, root, TargetOf(env, s, root, auth, e));
    MoveApplied(s, TargetOf(env, s, root, auth, e), p.newParent.value);
  }

  lemma MoveApplied(s: Snap, t: Node, d: Node)
    requires t in s && s[t].parent != null && s[t].parent in s && t in KidsOf(s, s[t].parent) && d in s
    ensures var o := ApplyPlan(Start(s), Plan([t], None, None, None, Some(d)));
            var s' := o.a.s;
            && o.Done? && o.a.touched == [t] && s'.Keys == s.Keys && s'[t].parent == d
            && (forall n :: n in s ==>
                  && s'[n].value == s[n].value && s'[n].id == s[n].id && (n != t ==> s'[n].parent == s[n].parent)
                  && (n != d && n != s[t].parent ==> s'[n].children == s[n].children))
            && exists i :: 0 <= i < |KidsOf(s, s[t].parent)| && KidsOf(s, s[t].parent)[i] == t
                 && var left := KidsOf(s, s[t].parent)[..i] + KidsOf(s, s[t].parent)[i + 1..];
                    if d == s[t].parent then s'[d].children == left + [t]
                    else s'[s[t].parent].children == left && s'[d].children == s[d].children + [t]
  {
    hide Moved, Remove;
    var kids := KidsOf(s, s[t].parent);
    var i := FirstPlace(kids, t);
    assert [] + [t] == [t];
    assert ApplyPlan(Start(s), Plan([t], None, None, None, Some(d))).a.s == Moved(s, t, d);
    MovedRecords(s, t, d);
    RemoveIs(kids, t, i);
    hide IndexOf, ApplyPlan;
    assert forall n :: n in s ==> s[n].children + [] == s[n].children;
    assert Remove(kids, t) + [] == Remove(kids, t);
  }

  lemma {:induction false} FirstPlace(xs: seq<Node>, x: Node) returns (i: nat)
    requires x in xs
    ensures i < |xs| && xs[i] == x && x !in xs[..i] && IndexOf(xs, x) == i
  {
    if xs[0] == x {
      i := 0;
    } else {
      var j := FirstPlace(xs[1..], x);
      i := j + 1;
      assert xs[..i] == [xs[0]] + xs[1..][..j];
    }
  }

  lemma {:induction false} RemoveIs(xs: seq<Node>, x: Node, i: nat)
    requires i < |xs| && xs[i] == x && x !in xs[..i]
    ensures Remove(xs, x) == xs[..i] + xs[i + 1..]
  {
    if i > 0 {
      assert xs[0] in xs[..i];
      assert xs[1..][..i - 1] == xs[..i][1..];
      forall y | y in xs[1..][..i - 1]
        ensures y in xs[..i]
      {
      }
      RemoveIs(xs[1..], x, i - 1);
      assert xs[..i] == [xs[0]] + xs[1..][..i - 1] && xs[1..][i..] == xs[i + 1..];
    }
  }
}
