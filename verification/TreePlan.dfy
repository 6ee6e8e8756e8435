/**
 * Planning a Set against the tree before the request, after
 * goimpl/internal/tree/tree.go:783-870 and 1032-1084, with the access checks of
 * 1144-1212, and what those checks guarantee of the outcome.
 */
module TreePlan {
  import opened Basics
  import opened WireTypes
  import opened Expression
  import opened Authz
  import opened TreeState
  import opened TreeRead
  import opened TreeSet
  import opened TreeSetSafety
  import opened UndoLog

  // --- resolving ----------------------------------------------------------------------

  ghost function ResolveOne(env: Engine, s: Snap, root: Node, auth: Option<Checker>, expr: Bytes): Result<Node,
                            SetError> {
    var parsed := Parse(env.re, expr);
    if parsed.Err? then Err(BadTarget(parsed.error))
    else
      var matches := Evaluate(env, s, root, auth, parsed.value);
      if |matches| == 1 then Ok(matches[0]) else Err(MatchCount(|matches|))
  }

  ghost function ResolvePointer(env: Engine, s: Snap, root: Node, auth: Option<Checker>,
                                p: NodePointer): Result<Node?, SetError> {
    match p
    case NonePointer => Ok(null)
    case OffsetPointer(_) => Err(OffsetNotAllowed)
    case AbsolutePointer(expr) =>
      var r := ResolveOne(env, s, root, auth, expr);
      if r.Err? then Err(r.error) else Ok(r.value)
  }

  // --- what a relink would drop ---------------------------------------------------------

  function DroppedByFirst(s: Snap, parent: Node, first: Node?): seq<Node> {
    var kids := KidsOf(s, parent);
    if first == null then kids
    else
      var idx := IndexOf(kids, first);
      if idx <= 0 then [] else kids[..idx]
  }

  function DroppedByNext(s: Snap, node: Node, next: Node?): seq<Node> {
    var parent := ParentOf(s, node);
    if parent == null then []
    else
      var kids := KidsOf(s, parent);
      var idx := IndexOf(kids, node);
      if idx < 0 then []
      else if next == null then kids[idx + 1..]
      else
        var newIdx := IndexOf(kids, next);
        if newIdx <= idx + 1 then [] else kids[idx + 1..newIdx]
  }

  /** requireDeleteAll: each node of ns, and everything beneath it through child lists. */
  ghost predicate DeleteAllowed(s: Snap, root: Node, auth: Option<Checker>, ns: seq<Node>)
    requires Inv(s, root)
  {
    forall n, m :: n in ns && m in s && Below(s, n, m) ==> May(s, auth, OpDelete, m)
  }

  // --- planning -------------------------------------------------------------------------

  ghost function PlanEdit(env: Engine, s: Snap, root: Node, staging: Node?, auth: Option<Checker>,
                          e: SetEdit): Result<Plan, SetError>
    requires Inv(s, root)
  {
    var parsed := Parse(env.re, e.target);
    if parsed.Err? then Err(BadTarget(parsed.error))
    else
      var targets := Evaluate(env, s, root, auth, parsed.value);
      var structural := e.newFirstChild.Some? || e.newNextSibling.Some? || e.newParent.Some?;
      if structural && |targets| != 1 then Err(MatchCount(|targets|))
      else if e.newValue.Some? && exists t :: t in targets && Grounded(s, t) && !May(s, auth, OpWrite, t) then Err(Denied)
      else if structural && Grounded(s, targets[0]) && !May(s, auth, OpWrite, targets[0]) then Err(Denied)
      else PlanParts(env, s, root, staging, auth, targets, e)
  }

  ghost function PlanParts(env: Engine, s: Snap, root: Node, staging: Node?, auth: Option<Checker>,
                           targets: seq<Node>, e: SetEdit): Result<Plan, SetError>
    requires Inv(s, root)
    requires e.newFirstChild.Some? || e.newNextSibling.Some? || e.newParent.Some? ==> |targets| == 1
  {
    var first :- PlanFirst(env, s, root, auth, targets, e);
    var next :- PlanNext(env, s, root, auth, targets, e);
    var newParent :- PlanParent(env, s, root, staging, auth, targets, e);
    Ok(Plan(targets, e.newValue, first, next, newParent))
  }

  ghost function PlanFirst(env: Engine, s: Snap, root: Node, auth: Option<Checker>, targets: seq<Node>,
                           e: SetEdit): Result<Option<Node?>, SetError>
    requires Inv(s, root) && (e.newFirstChild.Some? ==> |targets| == 1)
  {
    if e.newFirstChild.None? then Ok(None)
    else
      var n :- ResolvePointer(env, s, root, auth, e.newFirstChild.value);
      if !DeleteAllowed(s, root, auth, DroppedByFirst(s, targets[0], n)) then Err(Denied) else Ok(Some(n))
  }

  ghost function PlanNext(env: Engine, s: Snap, root: Node, auth: Option<Checker>, targets: seq<Node>,
                          e: SetEdit): Result<Option<Node?>, SetError>
    requires Inv(s, root) && (e.newNextSibling.Some? ==> |targets| == 1)
  {
    if e.newNextSibling.None? then Ok(None)
    else
      var n :- ResolvePointer(env, s, root, auth, e.newNextSibling.value);
      if !DeleteAllowed(s, root, auth, DroppedByNext(s, targets[0], n)) then Err(Denied) else Ok(Some(n))
  }

  ghost function PlanParent(env: Engine, s: Snap, root: Node, staging: Node?, auth: Option<Checker>,
                            targets: seq<Node>, e: SetEdit): Result<Option<Node>, SetError>
    requires Inv(s, root) && (e.newParent.Some? ==> |targets| == 1)
  {
    if e.newParent.None? then Ok(None)
    else if staging == null || !(Grounded(s, targets[0]) && Descends(s, staging, targets[0])) then Err(NotStaged)
    else
      var n :- ResolveOne(env, s, root, auth, e.newParent.value);
      if Grounded(s, n) && !May(s, auth, OpWrite, n) then Err(Denied)
      else if n in Subtree(s, targets[0]) then Err(WouldCycle)
      else Ok(Some(n))
  }

  /** Every edit is planned before any is applied; the first that fails ends the request. */
  ghost function PlanAll(env: Engine, s: Snap, root: Node, staging: Node?, auth: Option<Checker>,
                         edits: seq<SetEdit>): Result<seq<Plan>, SetError>
    requires Inv(s, root)
  {
    if edits == [] then Ok([])
    else
      var before :- PlanAll(env, s, root, staging, auth, edits[..|edits| - 1]);
      var p :- PlanEdit(env, s, root, staging, auth, edits[|edits| - 1]);
      Ok(before + [p])
  }

  /** A whole Set: the tree it leaves, and the nodes written or the error. */
  ghost function SetAs(env: Engine, s: Snap, root: Node, staging: Node?, auth: Option<Checker>,
                       edits: seq<SetEdit>): (Snap, Result<seq<Node>, SetError>)
    requires Inv(s, root)
  {
    var plans := PlanAll(env, s, root, staging, auth, edits);
    if plans.Err? then (s, Err(plans.error))
    else
      PlanAllOk(env, s, root, staging, auth, edits);
      var o := Apply(s, plans.value);
      if o.Done? then (o.a.s, Ok(o.a.touched)) else (Rollback(o.a), Err(o.error))
  }

  // --- what planning establishes ----------------------------------------------------------

  /** A plan's nodes may be read, and are reachable; its writes and drops were allowed. */
  ghost predicate Sound(s: Snap, root: Node, auth: Option<Checker>, p: Plan)
    requires Inv(s, root)
  {
    && PlanOk(s.Keys, p)
    && (forall t :: t in p.targets ==> t in ReachSet(s, root))
    && (p.newValue.Some? || p.Structural() ==> forall t :: t in p.targets && Grounded(s, t) ==> May(s, auth, OpWrite, t))
    && (p.first.Some? ==> DeleteAllowed(s, root, auth, DroppedByFirst(s, p.targets[0], p.first.value)))
    && (p.next.Some? ==> DeleteAllowed(s, root, auth, DroppedByNext(s, p.targets[0], p.next.value)))
    && (p.newParent.Some? ==>
          && p.newParent.value !in Subtree(s, p.targets[0])
          && s[p.targets[0]].parent != null
          && May(s, auth, OpWrite, p.newParent.value))
  }

  lemma EvaluatedAreReachable(env: Engine, s: Snap, root: Node, auth: Option<Checker>, segments: seq<Segment>)
    requires Inv(s, root)
    ensures forall n :: n in Evaluate(env, s, root, auth, segments) ==> n in s && Grounded(s, n) && n in ReachSet(s, root)
  {
    hide Evaluate, Below, Inv;
    forall n | n in Evaluate(env, s, root, auth, segments)
      ensures n in s && Grounded(s, n) && n in ReachSet(s, root)
    {
      EvaluateMember(env, s, root, auth, segments, n);
    }
  }

  lemma ResolvedIsReachable(env: Engine, s: Snap, root: Node, auth: Option<Checker>, expr: Bytes)
    requires Inv(s, root) && ResolveOne(env, s, root, auth, expr).Ok?
    ensures var n := ResolveOne(env, s, root, auth, expr).value; n in s && Grounded(s, n) && n in ReachSet(s, root)
  {
    hide Evaluate, ReachSet;
    EvaluatedAreReachable(env, s, root, auth, Parse(env.re, expr).value);
  }

  lemma PlanEditSound(env: Engine, s: Snap, root: Node, staging: Node?, auth: Option<Checker>, e: SetEdit)
    requires Inv(s, root) && PlanEdit(env, s, root, staging, auth, e).Ok?
    ensures Sound(s, root, auth, PlanEdit(env, s, root, staging, auth, e).value)
  {
    hide Evaluate, ReachSet, DeleteAllowed, May, Subtree, ResolveOne, ResolvePointer, Parse, DroppedByFirst,
         DroppedByNext;
    EvaluatedAreReachable(env, s, root, auth, Parse(env.re, e.target).value);
    if e.newParent.Some? {
      ResolvedIsReachable(env, s, root, auth, e.newParent.value);
    }
  }

  lemma {:induction false} PlanAllSound(env: Engine, s: Snap, root: Node, staging: Node?, auth: Option<Checker>,
                                        edits: seq<SetEdit>)
    requires Inv(s, root) && PlanAll(env, s, root, staging, auth, edits).Ok?
    ensures var plans := PlanAll(env, s, root, staging, auth, edits).value;
            && |plans| == |edits|
            && forall i :: 0 <= i < |plans| ==>
                 && PlanEdit(env, s, root, staging, auth, edits[i]) == Ok(plans[i])
                 && Sound(s, root, auth, plans[i])
  {
    hide PlanEdit, Sound, Inv;
    if edits != [] {
      var n := |edits| - 1;
      PlanAllSound(env, s, root, staging, auth, edits[..n]);
      PlanEditSound(env, s, root, staging, auth, edits[n]);
      var before, plans := PlanAll(env, s, root, staging, auth, edits[..n]).value, PlanAll(env, s, root, staging, auth, edits).value;
      assert plans[..n] == before;
      forall i | 0 <= i < |plans|
        ensures PlanEdit(env, s, root, staging, auth, edits[i]) == Ok(plans[i]) && Sound(s, root, auth, plans[i])
      {
        if i < n {
          assert edits[..n][i] == edits[i] && before[i] == plans[i];
        }
      }
    }
  }

  lemma PlanAllOk(env: Engine, s: Snap, root: Node, staging: Node?, auth: Option<Checker>, edits: seq<SetEdit>)
    requires Inv(s, root) && PlanAll(env, s, root, staging, auth, edits).Ok?
    ensures PlansOk(s.Keys, PlanAll(env, s, root, staging, auth, edits).value)
  {
    hide PlanEdit, PlanAll, Inv;
    PlanAllSound(env, s, root, staging, auth, edits);
  }
}
