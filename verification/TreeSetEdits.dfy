/**
 * What a Set does, said of its edits and of what their expressions match before it
 * (goimpl/internal/tree/tree.go:742-870): when planning accepts an edit and when it is
 * refused for lack of permission, what a successful request leaves in each node, what it
 * reports, and the whole outcome of a request of one edit.
 */
module TreeSetEdits {
  import opened Basics
  import opened WireTypes
  import opened Expression
  import opened Authz
  import opened TreeState
  import opened TreeRead
  import opened TreeSet
  import opened TreeSetSafety
  import opened TreePlan
  import opened TreeTouched
  import opened UndoLog

  // --- what an edit matches --------------------------------------------------------------

  /** The expression matches n in the tree before the request. */
  ghost predicate Hits(env: Engine, s: Snap, root: Node, auth: Option<Checker>, expr: Bytes, n: Node) {
    Parse(env.re, expr).Ok? && n in Evaluate(env, s, root, auth, Parse(env.re, expr).value)
  }

  ghost predicate Writes(env: Engine, s: Snap, root: Node, auth: Option<Checker>, e: SetEdit, n: Node) {
    e.newValue.Some? && Hits(env, s, root, auth, e.target, n)
  }

  ghost predicate Moves(env: Engine, s: Snap, root: Node, auth: Option<Checker>, e: SetEdit, n: Node) {
    e.newParent.Some? && Hits(env, s, root, auth, e.target, n)
  }

  predicate Structural(e: SetEdit) {
    e.newFirstChild.Some? || e.newNextSibling.Some? || e.newParent.Some?
  }

  /** What a planned edit keeps of its edit. */
  lemma PlanKeeps(env: Engine, s: Snap, root: Node, staging: Node?, auth: Option<Checker>, e: SetEdit)
    requires Inv(s, root) && PlanEdit(env, s, root, staging, auth, e).Ok?
    ensures var p := PlanEdit(env, s, root, staging, auth, e).value;
            && Parse(env.re, e.target).Ok?
            && p.targets == Evaluate(env, s, root, auth, Parse(env.re, e.target).value)
            && p.newValue == e.newValue
            && (p.first.Some? <==> e.newFirstChild.Some?)
            && (p.next.Some? <==> e.newNextSibling.Some?)
            && (p.newParent.Some? <==> e.newParent.Some?)
            && (Structural(e) ==> |p.targets| == 1)
            && (e.newFirstChild.Some? ==> ResolvePointer(env, s, root, auth, e.newFirstChild.value) == Ok(p.first.value))
            && (e.newNextSibling.Some? ==> ResolvePointer(env, s, root, auth, e.newNextSibling.value) == Ok(p.next.value))
            && (e.newParent.Some? ==> ResolveOne(env, s, root, auth, e.newParent.value) == Ok(p.newParent.value))
  {
    hide Inv, Evaluate, May, DeleteAllowed, Subtree, ResolvePointer, ResolveOne, Parse, Grounded, Descends;
  }

  // --- the last edit wins -------------------------------------------------------------------

  lemma {:induction false} OnWritesOf(ts: seq<Node>, v: NodeValue, n: Node)
    ensures var w := On(WritesOf(ts, v), n);
            (w != [] <==> n in ts) && forall i :: 0 <= i < |w| ==> w[i] == v
  {
    if ts != [] {
      var k := |ts| - 1;
      OnWritesOf(ts[..k], v, n);
      assert WritesOf(ts, v)[..k] == WritesOf(ts[..k], v);
      assert ts == ts[..k] + [ts[k]];
    }
  }

  /** Plan k is the last to write to n; none is if k is negative. */
  lemma {:induction false} LastWrite(plans: seq<Plan>, n: Node, k: int)
    requires -1 <= k < |plans| && (k >= 0 ==> plans[k].newValue.Some? && n in plans[k].targets)
    requires forall i :: k < i < |plans| && plans[i].newValue.Some? ==> n !in plans[i].targets
    ensures var w := On(AllWrites(plans), n);
            if k < 0 then w == [] else w != [] && w[|w| - 1] == plans[k].newValue.value
  {
    if plans != [] {
      var j := |plans| - 1;
      OnConcat(AllWrites(plans[..j]), ValueWrites(plans[j]), n);
      if plans[j].newValue.Some? {
        OnWritesOf(plans[j].targets, plans[j].newValue.value, n);
      }
      if k < j {
        LastWrite(plans[..j], n, k);
      }
    }
  }

  lemma {:induction false} LastMove(keys: set<Node>, plans: seq<Plan>, n: Node, k: int)
    requires PlansOk(keys, plans)
    requires -1 <= k < |plans| && (k >= 0 ==> plans[k].newParent.Some? && n in plans[k].targets)
    requires forall i :: k < i < |plans| && plans[i].newParent.Some? ==> n !in plans[i].targets
    ensures var m := On(AllMoves(keys, plans), n);
            if k < 0 then m == [] else m != [] && m[|m| - 1] == plans[k].newParent.value
  {
    hide On, MoveWrites;
    if plans == [] {
      NoMoveOn(n);
    } else {
      var j := |plans| - 1;
      OnConcat(AllMoves(keys, plans[..j]), MoveWrites(plans[j]), n);
      MoveWritesOn(plans[j], n);
      if k < j {
        LastMove(keys, plans[..j], n, k);
      }
    }
  }

  lemma NoMoveOn(n: Node)
    ensures On<Node, Node?>([], n) == []
  {
  }

  lemma MoveWritesOn(p: Plan, n: Node)
    requires p.Structural() ==> |p.targets| == 1
    ensures On(MoveWrites(p), n) == if p.newParent.Some? && n in p.targets then [p.newParent.value] else []
  {
    if p.newParent.Some? {
      OneMoveOn(p.targets[0], p.newParent.value, n);
      assert n in p.targets <==> n == p.targets[0];
    }
  }

  lemma OneMoveOn(t: Node, np: Node, n: Node)
    ensures On<Node, Node?>([(t, np)], n) == if t == n then [np] else []
  {
    OnSnoc<Node, Node?>([], t, np, n);
    assert [] + [(t, np as Node?)] == [(t, np as Node?)];
  }

  /** A successful Set is planned in full and applied in full. */
  lemma SetIsApplied(env: Engine, s: Snap, root: Node, staging: Node?, auth: Option<Checker>, edits: seq<SetEdit>)
    requires Inv(s, root) && SetAs(env, s, root, staging, auth, edits).1.Ok?
    ensures var plans := PlanAll(env, s, root, staging, auth, edits);
            && plans.Ok? && PlansOk(s.Keys, plans.value) && Apply(s, plans.value).Done?
            && SetAs(env, s, root, staging, auth, edits) == (Apply(s, plans.value).a.s, Ok(Apply(s, plans.value).a.touched))
            && |plans.value| == |edits|
            && forall i :: 0 <= i < |edits| ==> PlanEdit(env, s, root, staging, auth, edits[i]) == Ok(plans.value[i])
  {
    hide Inv, PlanAll, PlanEdit, Apply, PlansOk, TreePlan.Sound;
    PlanAllOk(env, s, root, staging, auth, edits);
    PlanAllSound(env, s, root, staging, auth, edits);
  }

  /**
   * The success half: after a Set each node holds the value of the last edit that has
   * one and whose target matched it before the request, and its own value if none did.
   */
  lemma SetWritesLastMatch(env: Engine, s: Snap, root: Node, staging: Node?, auth: Option<Checker>, edits: seq<SetEdit>,
                           n: Node, k: int)
    requires Inv(s, root) && SetAs(env, s, root, staging, auth, edits).1.Ok? && n in s && -1 <= k < |edits|
    requires k >= 0 ==> Writes(env, s, root, auth, edits[k], n)
    requires forall i :: k < i < |edits| ==> !Writes(env, s, root, auth, edits[i], n)
    ensures var s' := SetAs(env, s, root, staging, auth, edits).0;
            n in s' && s'[n].value == if k < 0 then s[n].value else edits[k].newValue.value
  {
    hide Inv, PlanAll, PlanEdit, Apply, SetAs, AllWrites, AllMoves, On, Evaluate, PlansOk, Parse, ResolveOne,
         ResolvePointer;
    SetIsApplied(env, s, root, staging, auth, edits);
    var plans := PlanAll(env, s, root, staging, auth, edits).value;
    forall i | 0 <= i < |edits|
      ensures plans[i].newValue == edits[i].newValue
      ensures n in plans[i].targets <==> Hits(env, s, root, auth, edits[i].target, n)
    {
      PlanKeeps(env, s, root, staging, auth, edits[i]);
    }
    SuccessWritesLast(s, plans, n);
    LastWrite(plans, n, k);
  }

  /** And its parent is the one match of the last newParent whose target matched it, or the parent it had. */
  lemma SetMovesLastMatch(env: Engine, s: Snap, root: Node, staging: Node?, auth: Option<Checker>, edits: seq<SetEdit>,
                          n: Node, k: int)
    requires Inv(s, root) && SetAs(env, s, root, staging, auth, edits).1.Ok? && n in s && -1 <= k < |edits|
    requires k >= 0 ==> Moves(env, s, root, auth, edits[k], n)
    requires forall i :: k < i < |edits| ==> !Moves(env, s, root, auth, edits[i], n)
    ensures var s' := SetAs(env, s, root, staging, auth, edits).0;
            n in s' && if k < 0 then s'[n].parent == s[n].parent
                       else s'[n].parent != null && LedTo(env, s, root, auth, edits[k].newParent.value) == Some(s'[n].parent)
  {
    hide Inv, PlanAll, PlanEdit, Apply, SetAs, AllWrites, AllMoves, On, Evaluate, PlansOk, Parse, ResolvePointer;
    SetIsApplied(env, s, root, staging, auth, edits);
    var plans := PlanAll(env, s, root, staging, auth, edits).value;
    forall i | 0 <= i < |edits|
      ensures plans[i].newParent.Some? <==> edits[i].newParent.Some?
      ensures n in plans[i].targets <==> Hits(env, s, root, auth, edits[i].target, n)
      ensures edits[i].newParent.Some? ==>
                LedTo(env, s, root, auth, edits[i].newParent.value) == Some(plans[i].newParent.value)
    {
      PlanKeeps(env, s, root, staging, auth, edits[i]);
    }
    SuccessWritesLast(s, plans, n);
    LastMove(s.Keys, plans, n, k);
  }

  predicate TouchedBy(p: Plan, n: Node) {
    n in p.targets && (p.newValue.Some? || p.Structural())
  }

  lemma TouchesAre(p: Plan, n: Node)
    requires p.Structural() ==> |p.targets| == 1
    ensures n in Touches(p) <==> TouchedBy(p, n)
  {
  }

  lemma {:induction false} AllTouchesAre(keys: set<Node>, plans: seq<Plan>, n: Node)
    requires PlansOk(keys, plans)
    ensures n in AllTouches(keys, plans) <==> exists i :: 0 <= i < |plans| && TouchedBy(plans[i], n)
  {
    hide Touches, TouchedBy;
    if plans != [] {
      var k := |plans| - 1;
      AllTouchesAre(keys, plans[..k], n);
      TouchesAre(plans[k], n);
      assert forall i :: 0 <= i < k ==> plans[..k][i] == plans[i];
    }
  }

  /** A successful Set reports, once each, exactly the nodes matched by an edit that asks for anything. */
  lemma SetReportsMatches(env: Engine, s: Snap, root: Node, staging: Node?, auth: Option<Checker>, edits: seq<SetEdit>,
                          n: Node)
    requires Inv(s, root) && SetAs(env, s, root, staging, auth, edits).1.Ok?
    ensures var r := SetAs(env, s, root, staging, auth, edits).1;
            && NoDup(r.value)
            && (n in r.value <==>
                  exists i :: 0 <= i < |edits| && (edits[i].newValue.Some? || Structural(edits[i]))
                              && Hits(env, s, root, auth, edits[i].target, n))
  {
    hide Inv, PlanAll, PlanEdit, Apply, SetAs, Evaluate, PlansOk, Parse, ResolveOne, ResolvePointer, AllTouches,
         FirstSeen, NoDup;
    SetIsApplied(env, s, root, staging, auth, edits);
    var plans := PlanAll(env, s, root, staging, auth, edits).value;
    TouchedIsFirstSeen(s, plans);
    FirstSeenMembers(AllTouches(s.Keys, plans));
    FirstSeenMember(AllTouches(s.Keys, plans), n);
    AllTouchesAre(s.Keys, plans, n);
    forall i | 0 <= i < |edits|
      ensures TouchedBy(plans[i], n) <==>
                (edits[i].newValue.Some? || Structural(edits[i])) && Hits(env, s, root, auth, edits[i].target, n)
    {
      PlanKeeps(env, s, root, staging, auth, edits[i]);
    }
  }

  // --- when planning accepts -------------------------------------------------------------------

  /** The one node that the expression matches, if it is one. */
  ghost function LedTo(env: Engine, s: Snap, root: Node, auth: Option<Checker>, expr: Bytes): Option<Node> {
    if Parse(env.re, expr).Ok? && |Evaluate(env, s, root, auth, Parse(env.re, expr).value)| == 1
    then Some(Evaluate(env, s, root, auth, Parse(env.re, expr).value)[0])
    else None
  }

  /** Where a newFirstChild or newNextSibling leads; null is "none". */
  ghost function PointerTo(env: Engine, s: Snap, root: Node, auth: Option<Checker>, p: NodePointer): Option<Node?> {
    match p
    case NonePointer => Some(null)
    case OffsetPointer(_) => None
    case AbsolutePointer(expr) =>
      match LedTo(env, s, root, auth, expr)
      case None => None
      case Some(n) => Some(n)
  }

  ghost predicate MayWrite(s: Snap, auth: Option<Checker>, n: Node) {
    n in s && Grounded(s, n) && (auth.None? || auth.value(OpWrite, NodePath(s, n)))
  }

  /** n and everything listed below it may be deleted. */
  ghost predicate MayDrop(s: Snap, auth: Option<Checker>, n: Node) {
    forall m :: m in s && Below(s, n, m) ==> Grounded(s, m) && (auth.None? || auth.value(OpDelete, NodePath(s, m)))
  }

  /** c stands somewhere behind place i. */
  predicate Behind(kids: seq<Node>, i: nat, c: Node?)
    requires i < |kids|
  {
    c in kids[i + 1..]
  }

  /** All that would go may go, if t's list is to begin with c: what stands ahead of c, or everything. */
  ghost predicate FirstMayDrop(s: Snap, auth: Option<Checker>, t: Node, c: Node?) {
    var kids := KidsOf(s, t);
    forall i :: 0 <= i < |kids| && (c == null || Behind(kids, i, c)) ==> MayDrop(s, auth, kids[i])
  }

  /** The same if c is to follow t in their list: what stands between the two, or everything after t. */
  ghost predicate NextMayDrop(s: Snap, auth: Option<Checker>, t: Node, c: Node?) {
    var p := ParentOf(s, t);
    p != null ==>
      var kids := KidsOf(s, p);
      forall i, j :: 0 <= i < j < |kids| && kids[i] == t && (c == null || Behind(kids, j, c)) ==> MayDrop(s, auth, kids[j])
  }

  /** The target is as the edit needs it: any number of matches, or just one for a structural edit. */
  ghost predicate TargetFits(env: Engine, s: Snap, root: Node, auth: Option<Checker>, e: SetEdit) {
    && Parse(env.re, e.target).Ok?
    && (Structural(e) ==> |Evaluate(env, s, root, auth, Parse(env.re, e.target).value)| == 1)
  }

  ghost predicate TargetWritable(env: Engine, s: Snap, root: Node, auth: Option<Checker>, e: SetEdit) {
    e.newValue.Some? || Structural(e) ==> forall t :: t in s && Hits(env, s, root, auth, e.target, t) ==> MayWrite(s, auth, t)
  }

  ghost function TargetOf(env: Engine, s: Snap, root: Node, auth: Option<Checker>, e: SetEdit): Node
    requires Structural(e) && TargetFits(env, s, root, auth, e)
  {
    LedTo(env, s, root, auth, e.target).value
  }

  ghost predicate FirstLeads(env: Engine, s: Snap, root: Node, auth: Option<Checker>, e: SetEdit) {
    e.newFirstChild.Some? ==> PointerTo(env, s, root, auth, e.newFirstChild.value).Some?
  }

  ghost predicate FirstDrops(env: Engine, s: Snap, root: Node, auth: Option<Checker>, e: SetEdit)
    requires TargetFits(env, s, root, auth, e) && FirstLeads(env, s, root, auth, e)
  {
    e.newFirstChild.Some? ==>
      FirstMayDrop(s, auth, TargetOf(env, s, root, auth, e), PointerTo(env, s, root, auth, e.newFirstChild.value).value)
  }

  ghost predicate NextLeads(env: Engine, s: Snap, root: Node, auth: Option<Checker>, e: SetEdit) {
    e.newNextSibling.Some? ==> PointerTo(env, s, root, auth, e.newNextSibling.value).Some?
  }

  ghost predicate NextDrops(env: Engine, s: Snap, root: Node, auth: Option<Checker>, e: SetEdit)
    requires TargetFits(env, s, root, auth, e) && NextLeads(env, s, root, auth, e)
  {
    e.newNextSibling.Some? ==>
      NextMayDrop(s, auth, TargetOf(env, s, root, auth, e), PointerTo(env, s, root, auth, e.newNextSibling.value).value)
  }

  /** What is moved is one of the session's staged nodes, and there is one place to move it to. */
  ghost predicate MoveLeads(env: Engine, s: Snap, root: Node, staging: Node?, auth: Option<Checker>, e: SetEdit)
    requires TargetFits(env, s, root, auth, e)
  {
    e.newParent.Some? ==>
      && staging != null && Grounded(s, TargetOf(env, s, root, auth, e)) && Descends(s, staging, TargetOf(env, s, root, auth, e))
      && LedTo(env, s, root, auth, e.newParent.value).Some?
  }

  ghost predicate MoveWritable(env: Engine, s: Snap, root: Node, staging: Node?, auth: Option<Checker>, e: SetEdit)
    requires TargetFits(env, s, root, auth, e) && MoveLeads(env, s, root, staging, auth, e)
  {
    e.newParent.Some? ==> MayWrite(s, auth, LedTo(env, s, root, auth, e.newParent.value).value)
  }

  ghost predicate MoveOutside(env: Engine, s: Snap, root: Node, staging: Node?, auth: Option<Checker>, e: SetEdit)
    requires TargetFits(env, s, root, auth, e) && MoveLeads(env, s, root, staging, auth, e)
  {
    e.newParent.Some? ==>
      var (t, d) := (TargetOf(env, s, root, auth, e), LedTo(env, s, root, auth, e.newParent.value).value);
      d != t && Grounded(s, d) && !Descends(s, t, d)
  }

  /** An edit that planning accepts. */
  ghost predicate Plannable(env: Engine, s: Snap, root: Node, staging: Node?, auth: Option<Checker>, e: SetEdit) {
    && TargetFits(env, s, root, auth, e) && TargetWritable(env, s, root, auth, e)
    && FirstLeads(env, s, root, auth, e) && FirstDrops(env, s, root, auth, e)
    && NextLeads(env, s, root, auth, e) && NextDrops(env, s, root, auth, e)
    && MoveLeads(env, s, root, staging, auth, e) && MoveWritable(env, s, root, staging, auth, e)
    && MoveOutside(env, s, root, staging, auth, e)
  }

  /** An edit of which the first check that fails is one of permission. */
  ghost predicate Forbidden(env: Engine, s: Snap, root: Node, staging: Node?, auth: Option<Checker>, e: SetEdit) {
    TargetFits(env, s, root, auth, e) &&
    (!TargetWritable(env, s, root, auth, e) ||
     (FirstLeads(env, s, root, auth, e) &&
      (!FirstDrops(env, s, root, auth, e) ||
       (NextLeads(env, s, root, auth, e) &&
        (!NextDrops(env, s, root, auth, e) ||
         (MoveLeads(env, s, root, staging, auth, e) && !MoveWritable(env, s, root, staging, auth, e)))))))
  }

  lemma ResolvesTo(env: Engine, s: Snap, root: Node, auth: Option<Checker>, expr: Bytes)
    requires Inv(s, root)
    ensures var r := ResolveOne(env, s, root, auth, expr);
            && (r.Ok? <==> LedTo(env, s, root, auth, expr).Some?) && (r.Err? ==> r.error != Denied)
            && (r.Ok? ==> LedTo(env, s, root, auth, expr) == Some(r.value) && r.value in s && Grounded(s, r.value))
  {
    hide Inv, Evaluate, Parse, ReachSet;
    if ResolveOne(env, s, root, auth, expr).Ok? {
      ResolvedIsReachable(env, s, root, auth, expr);
    }
  }

  lemma PointsTo(env: Engine, s: Snap, root: Node, auth: Option<Checker>, p: NodePointer)
    requires Inv(s, root)
    ensures var r := ResolvePointer(env, s, root, auth, p);
            && (r.Ok? <==> PointerTo(env, s, root, auth, p).Some?) && (r.Err? ==> r.error != Denied)
            && (r.Ok? ==> PointerTo(env, s, root, auth, p) == Some(r.value))
  {
    hide Inv, ResolveOne, LedTo;
    if p.AbsolutePointer? {
      ResolvesTo(env, s, root, auth, p.expr);
    }
  }

  lemma DroppableMeans(s: Snap, root: Node, auth: Option<Checker>, ns: seq<Node>)
    requires Inv(s, root)
    ensures DeleteAllowed(s, root, auth, ns) <==> forall i :: 0 <= i < |ns| ==> MayDrop(s, auth, ns[i])
  {
    hide Inv, Below, May;
    forall m | m in s
      ensures Grounded(s, m) && (May(s, auth, OpDelete, m) <==> auth.None? || auth.value(OpDelete, NodePath(s, m)))
    {
      InvGrounds(s, root, m);
      MayMeans(s, auth, OpDelete, m);
    }
    if DeleteAllowed(s, root, auth, ns) {
      forall i | 0 <= i < |ns|
        ensures MayDrop(s, auth, ns[i])
      {
        assert ns[i] in ns;
      }
    }
  }

  /** In a list without repeats, what stands ahead of place k has its node behind it. */
  lemma BehindMeans(kids: seq<Node>, c: Node, k: nat, i: nat)
    requires NoDup(kids) && k < |kids| && kids[k] == c && i < |kids|
    ensures Behind(kids, i, c) <==> i < k
  {
    if i < k {
      assert kids[i + 1..][k - i - 1] == c;
    }
  }

  lemma FirstDropsMean(s: Snap, root: Node, auth: Option<Checker>, t: Node, c: Node?)
    requires Inv(s, root)
    ensures DeleteAllowed(s, root, auth, DroppedByFirst(s, t, c)) <==> FirstMayDrop(s, auth, t, c)
  {
    hide Inv, DeleteAllowed, MayDrop, NoDup, IndexOf;
    var kids, dropped := KidsOf(s, t), DroppedByFirst(s, t, c);
    DistinctKids(s, root, t);
    DroppableMeans(s, root, auth, dropped);
    if c != null {
      var k := IndexOf(kids, c);
      forall i | 0 <= i < |kids|
        ensures Behind(kids, i, c) <==> i < k
      {
        if k >= 0 {
          BehindMeans(kids, c, k, i);
        }
      }
    }
  }

  lemma NextDropsMean(s: Snap, root: Node, auth: Option<Checker>, t: Node, c: Node?)
    requires Inv(s, root) && ParentOf(s, t) != null
    ensures DeleteAllowed(s, root, auth, DroppedByNext(s, t, c)) <==> NextMayDrop(s, auth, t, c)
  {
    hide Inv, DeleteAllowed, MayDrop, NoDup, IndexOf;
    var kids, dropped := KidsOf(s, ParentOf(s, t)), DroppedByNext(s, t, c);
    DistinctKids(s, root, ParentOf(s, t));
    DroppableMeans(s, root, auth, dropped);
    var at := IndexOf(kids, t);
    forall i | 0 <= i < |kids|
      ensures kids[i] == t <==> i == at
    {
      if at >= 0 {
        OnePlace(kids, i, at);
      }
    }
    if c != null {
      var k := IndexOf(kids, c);
      forall j | 0 <= j < |kids|
        ensures Behind(kids, j, c) <==> j < k
      {
        if k >= 0 {
          BehindMeans(kids, c, k, j);
        }
      }
    }
  }

  lemma OnePlace(kids: seq<Node>, i: nat, j: nat)
    requires NoDup(kids) && i < |kids| && j < |kids|
    ensures kids[i] == kids[j] <==> i == j
  {
  }

  lemma MatchesInside(env: Engine, s: Snap, root: Node, auth: Option<Checker>, segments: seq<Segment>)
    requires Inv(s, root) && segments != []
    ensures forall n :: n in Evaluate(env, s, root, auth, segments) ==>
              n in s && Grounded(s, n) && n != root && s[n].parent != null && n in KidsOf(s, s[n].parent)
  {
    hide Evaluate, Below, MatchesUpTo, Height, Inv;
    forall n | n in Evaluate(env, s, root, auth, segments)
      ensures n in s && Grounded(s, n) && n != root && s[n].parent != null && n in KidsOf(s, s[n].parent)
    {
      EvaluateMember(env, s, root, auth, segments, n);
      HeightStep(s, n);
      RootHasNoParent(s, root);
      HeightStep(s, root);
      BelowParent(s, root, root, n);
    }
  }

  lemma TargetsWritable(env: Engine, s: Snap, root: Node, auth: Option<Checker>, e: SetEdit)
    requires Inv(s, root) && TargetFits(env, s, root, auth, e)
    ensures var ts := Evaluate(env, s, root, auth, Parse(env.re, e.target).value);
            && (forall t :: t in ts ==> t in s && Grounded(s, t))
            && (TargetWritable(env, s, root, auth, e) <==>
                  (e.newValue.Some? || Structural(e) ==> forall t :: t in ts ==> May(s, auth, OpWrite, t)))
  {
    hide Inv, Evaluate, May, Parse, NodePath;
    var ts := Evaluate(env, s, root, auth, Parse(env.re, e.target).value);
    TargetParses(env, e.target);
    MatchesInside(env, s, root, auth, Parse(env.re, e.target).value);
    forall t | t in ts
      ensures May(s, auth, OpWrite, t) <==> MayWrite(s, auth, t)
    {
      MayMeans(s, auth, OpWrite, t);
    }
  }

  lemma TargetParses(env: Engine, expr: Bytes)
    requires Parse(env.re, expr).Ok?
    ensures Parse(env.re, expr).value != []
  {
    ParsedNotEmpty(env.re, expr);
  }

  lemma FirstPlans(env: Engine, s: Snap, root: Node, auth: Option<Checker>, e: SetEdit)
    requires Inv(s, root) && Structural(e) && TargetFits(env, s, root, auth, e)
    ensures var r := PlanFirst(env, s, root, auth, Evaluate(env, s, root, auth, Parse(env.re, e.target).value), e);
            && (r.Ok? <==> FirstLeads(env, s, root, auth, e) && FirstDrops(env, s, root, auth, e))
            && (r == Err(Denied) <==> FirstLeads(env, s, root, auth, e) && !FirstDrops(env, s, root, auth, e))
  {
    hide Inv, Evaluate, Parse, ResolvePointer, PointerTo, DeleteAllowed, FirstMayDrop, DroppedByFirst;
    if e.newFirstChild.Some? {
      PointsTo(env, s, root, auth, e.newFirstChild.value);
      var r := ResolvePointer(env, s, root, auth, e.newFirstChild.value);
      if r.Ok? {
        FirstDropsMean(s, root, auth, TargetOf(env, s, root, auth, e), r.value);
      }
    }
  }

  lemma NextPlans(env: Engine, s: Snap, root: Node, auth: Option<Checker>, e: SetEdit)
    requires Inv(s, root) && Structural(e) && TargetFits(env, s, root, auth, e)
    ensures var r := PlanNext(env, s, root, auth, Evaluate(env, s, root, auth, Parse(env.re, e.target).value), e);
            && (r.Ok? <==> NextLeads(env, s, root, auth, e) && NextDrops(env, s, root, auth, e))
            && (r == Err(Denied) <==> NextLeads(env, s, root, auth, e) && !NextDrops(env, s, root, auth, e))
  {
    hide Inv, Evaluate, Parse, ResolvePointer, PointerTo, DeleteAllowed, NextMayDrop, DroppedByNext;
    if e.newNextSibling.Some? {
      PointsTo(env, s, root, auth, e.newNextSibling.value);
      TargetParses(env, e.target);
      MatchesInside(env, s, root, auth, Parse(env.re, e.target).value);
      var r := ResolvePointer(env, s, root, auth, e.newNextSibling.value);
      if r.Ok? {
        NextDropsMean(s, root, auth, TargetOf(env, s, root, auth, e), r.value);
      }
    }
  }

  lemma ParentPlans(env: Engine, s: Snap, root: Node, staging: Node?, auth: Option<Checker>, e: SetEdit)
    requires Inv(s, root) && Structural(e) && TargetFits(env, s, root, auth, e)
    ensures var r := PlanParent(env, s, root, staging, auth, Evaluate(env, s, root, auth, Parse(env.re, e.target).value), e);
            && (r.Ok? <==> MoveLeads(env, s, root, staging, auth, e) && MoveWritable(env, s, root, staging, auth, e)
                           && MoveOutside(env, s, root, staging, auth, e))
            && (r == Err(Denied) <==> MoveLeads(env, s, root, staging, auth, e) && !MoveWritable(env, s, root, staging, auth, e))
  {
    hide Inv, Evaluate, Parse, ResolveOne, May, NodePath;
    if e.newParent.Some? {
      ResolvesTo(env, s, root, auth, e.newParent.value);
      var r := ResolveOne(env, s, root, auth, e.newParent.value);
      if r.Ok? {
        MayMeans(s, auth, OpWrite, r.value);
      }
      hide LedTo;
    }
  }

  /** Planning accepts exactly the edits that are plannable, and refuses for lack of permission exactly the forbidden ones. */
  lemma PlansExactly(env: Engine, s: Snap, root: Node, staging: Node?, auth: Option<Checker>, e: SetEdit)
    requires Inv(s, root)
    ensures PlanEdit(env, s, root, staging, auth, e).Ok? <==> Plannable(env, s, root, staging, auth, e)
    ensures PlanEdit(env, s, root, staging, auth, e) == Err(Denied) <==> Forbidden(env, s, root, staging, auth, e)
  {
    hide Inv, Evaluate, May, Parse, TargetWritable, Grounded, PlanParts;
    if TargetFits(env, s, root, auth, e) {
      TargetsWritable(env, s, root, auth, e);
      PartsPlan(env, s, root, staging, auth, e);
      hide FirstLeads, FirstDrops, NextLeads, NextDrops, MoveLeads, MoveWritable, MoveOutside;
      var ts := Evaluate(env, s, root, auth, Parse(env.re, e.target).value);
      assert Structural(e) ==> forall t :: t in ts <==> t == ts[0];
    }
  }

  lemma PartsPlan(env: Engine, s: Snap, root: Node, staging: Node?, auth: Option<Checker>, e: SetEdit)
    requires Inv(s, root) && TargetFits(env, s, root, auth, e)
    ensures var r := PlanParts(env, s, root, staging, auth, Evaluate(env, s, root, auth, Parse(env.re, e.target).value), e);
            && (r.Ok? <==>
                  && FirstLeads(env, s, root, auth, e) && FirstDrops(env, s, root, auth, e)
                  && NextLeads(env, s, root, auth, e) && NextDrops(env, s, root, auth, e)
                  && MoveLeads(env, s, root, staging, auth, e) && MoveWritable(env, s, root, staging, auth, e)
                  && MoveOutside(env, s, root, staging, auth, e))
            && (r == Err(Denied) <==>
                  FirstLeads(env, s, root, auth, e) &&
                  (!FirstDrops(env, s, root, auth, e) ||
                   (NextLeads(env, s, root, auth, e) &&
                    (!NextDrops(env, s, root, auth, e) ||
                     (MoveLeads(env, s, root, staging, auth, e) && !MoveWritable(env, s, root, staging, auth, e))))))
  {
    hide Inv, Evaluate, Parse, Grounded;
    if Structural(e) {
      hide PlanFirst, PlanNext, PlanParent, TargetOf;
      FirstPlans(env, s, root, auth, e);
      NextPlans(env, s, root, auth, e);
      ParentPlans(env, s, root, staging, auth, e);
      hide FirstLeads, FirstDrops, NextLeads, NextDrops, MoveLeads, MoveWritable, MoveOutside;
    }
  }

  /** Of a whole request: it is planned if and only if each edit is plannable, and the first that is not decides the error. */
  lemma {:induction false} RequestPlans(env: Engine, s: Snap, root: Node, staging: Node?, auth: Option<Checker>,
                                        edits: seq<SetEdit>)
    requires Inv(s, root)
    ensures PlanAll(env, s, root, staging, auth, edits).Ok? <==>
              forall i :: 0 <= i < |edits| ==> Plannable(env, s, root, staging, auth, edits[i])
    ensures PlanAll(env, s, root, staging, auth, edits) == Err(Denied) <==>
              exists i :: 0 <= i < |edits| && Forbidden(env, s, root, staging, auth, edits[i])
                          && forall j :: 0 <= j < i ==> Plannable(env, s, root, staging, auth, edits[j])
  {
    hide Inv, PlanEdit, Plannable, Forbidden;
    if edits != [] {
      var n := |edits| - 1;
      RequestPlans(env, s, root, staging, auth, edits[..n]);
      PlansExactly(env, s, root, staging, auth, edits[n]);
      assert forall i :: 0 <= i < n ==> edits[..n][i] == edits[i];
      if PlanAll(env, s, root, staging, auth, edits[..n]) == Err(Denied) {
        var i :| 0 <= i < n && Forbidden(env, s, root, staging, auth, edits[..n][i])
                 && forall j :: 0 <= j < i ==> Plannable(env, s, root, staging, auth, edits[..n][j]);
        assert Forbidden(env, s, root, staging, auth, edits[i]);
      }
    }
  }

  /**
   * A request of value edits succeeds exactly when every target parses and every node
   * matched may be written, however many each target matches, and none is no error.
   */
  lemma ValueEditsSucceed(env: Engine, s: Snap, root: Node, staging: Node?, auth: Option<Checker>, edits: seq<SetEdit>)
    requires Inv(s, root) && forall i :: 0 <= i < |edits| ==> !Structural(edits[i])
    ensures SetAs(env, s, root, staging, auth, edits).1.Ok? <==>
              forall i :: 0 <= i < |edits| ==>
                && Parse(env.re, edits[i].target).Ok?
                && forall n :: n in s && Writes(env, s, root, auth, edits[i], n) ==> MayWrite(s, auth, n)
  {
    hide Inv, PlanEdit, PlanAll, Apply, Evaluate, MayWrite, Parse, PlansOk, Rollback;
    RequestPlans(env, s, root, staging, auth, edits);
    var plans := PlanAll(env, s, root, staging, auth, edits);
    if plans.Ok? {
      PlanAllOk(env, s, root, staging, auth, edits);
      PlanAllSound(env, s, root, staging, auth, edits);
      forall i | 0 <= i < |edits|
        ensures !plans.value[i].Structural()
      {
        hide ResolvePointer, ResolveOne;
        PlanKeeps(env, s, root, staging, auth, edits[i]);
      }
      hide TreePlan.Sound;
      ValuesNeverConflict(s, plans.value);
    }
  }

  lemma {:induction false} ValuesNeverConflict(s: Snap, plans: seq<Plan>)
    requires PlansOk(s.Keys, plans) && forall i :: 0 <= i < |plans| ==> !plans[i].Structural()
    ensures Apply(s, plans).Done?
  {
    if plans != [] {
      ValuesNeverConflict(s, plans[..|plans| - 1]);
    }
  }
}
