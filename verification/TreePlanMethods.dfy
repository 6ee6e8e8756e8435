/**
 * Planning a Set, and the whole of Set and Delete, as the code runs them on the heap,
 * proved against TreePlan.SetAs and TreeDelete.DeleteAs.
 */
module TreePlanMethods {
  import opened Basics
  import opened WireTypes
  import opened Expression
  import opened Authz
  import opened TreeState
  import opened TreeRead
  import opened TreeSet
  import opened TreeTouched
  import opened TreePlan
  import opened TreeDelete
  import opened TreeGrow
  import opened TreeRun
  import opened TreeHeap
  import opened TreeSetMethods

  // --- permission to delete ----------------------------------------------------------------

  /** The operation is allowed on n and on everything beneath it. */
  ghost predicate SubtreeMay(s: Snap, root: Node, auth: Option<Checker>, op: Op, n: Node)
    requires Inv(s, root)
  {
    forall m :: m in s && Below(s, n, m) ==> May(s, auth, op, m)
  }

  lemma {:induction false} BelowThroughChild(s: Snap, root: Node, n: Node, m: Node) returns (c: Node)
    requires Inv(s, root) && n in s && m in s && Below(s, n, m) && m != n
    ensures c in s[n].children && Below(s, c, m)
    decreases Height(s, m)
  {
    hide Below;
    BelowParent(s, root, n, m);
    HeightStep(s, m);
    var p := s[m].parent;
    if p == n {
      c := m;
      BelowSelf(s, m);
    } else {
      c := BelowThroughChild(s, root, n, p);
      BelowStep(s, c, p, m);
    }
  }

  /** The nodes on which, and on everything beneath them, the operation is allowed. */
  ghost function Free(s: Snap, root: Node, auth: Option<Checker>, op: Op): set<Node>
    requires Inv(s, root)
  {
    set n | n in s && SubtreeMay(s, root, auth, op, n)
  }

  /** A subtree is allowed just when its top and its children's subtrees are. */
  lemma FreeParts(s: Snap, root: Node, auth: Option<Checker>, op: Op, n: Node)
    requires Inv(s, root) && n in s
    ensures n in Free(s, root, auth, op) <==>
              May(s, auth, op, n) && forall c :: c in s[n].children ==> c in Free(s, root, auth, op)
  {
    hide Below, May, Closed, Owned, Distinct;
    BelowSelf(s, n);
    if SubtreeMay(s, root, auth, op, n) {
      forall c, m | c in s[n].children && m in s && Below(s, c, m)
        ensures c in s && May(s, auth, op, m)
      {
        OwnedBy(s, root, n, c);
        BelowStep(s, n, n, c);
        BelowTransitive(s, root, n, c, m);
      }
      forall c | c in s[n].children
        ensures c in s
      {
        OwnedBy(s, root, n, c);
      }
    }
    if May(s, auth, op, n) && forall c :: c in s[n].children ==> c in Free(s, root, auth, op) {
      forall m | m in s && Below(s, n, m)
        ensures May(s, auth, op, m)
      {
        if m != n {
          var c := BelowThroughChild(s, root, n, m);
          assert c in Free(s, root, auth, op);
        }
      }
    }
  }

  lemma FreeIsAllowed(s: Snap, root: Node, auth: Option<Checker>, ns: seq<Node>)
    requires Inv(s, root) && forall n :: n in ns ==> n in s
    ensures DeleteAllowed(s, root, auth, ns) <==> forall n :: n in ns ==> n in Free(s, root, auth, OpDelete)
  {
    hide Below, May, Closed, Owned, Distinct;
  }

  lemma AnyoneMay(s: Snap, root: Node, ns: seq<Node>)
    requires Inv(s, root)
    ensures DeleteAllowed(s, root, None, ns)
  {
    hide Below;
  }

  /** subtreeAllows: every node beneath n, not n itself. */
  method SubtreeAllows(t: Tree, auth: Option<Checker>, op: Op, n: Node) returns (allowed: bool)
    requires t.Valid() && n in t.nodes
    ensures allowed <==> forall c :: c in n.children ==> c in Free(t.Snap(), t.root, auth, op)
    decreases Subtree(t.Snap(), n)
  {
    hide Tree.Snap, Tree.Valid, Inv, IdsOk, May, Subtree, Free, KidsOf;
    t.Sound();
    ghost var s, root := t.Snap(), t.root;
    ghost var all := Free(s, root, auth, op);
    t.Fields(n);
    var i := 0;
    while i < |n.children|
      invariant 0 <= i <= |n.children|
      invariant forall k :: 0 <= k < i ==> n.children[k] in all
    {
      var c := n.children[i];
      OwnedBy(s, root, n, c);
      KidsOfRecord(s, n);
      SubtreeShrinks(s, root, n, c);
      t.Fields(c);
      KidsOfRecord(s, c);
      FreeParts(s, root, auth, op, c);
      var may := t.RequireOp(auth, op, c);
      if !may {
        return false;
      }
      var below := SubtreeAllows(t, auth, op, c);
      if !below {
        return false;
      }
      i := i + 1;
    }
    return true;
  }

  method RequireDeleteAll(t: Tree, auth: Option<Checker>, ns: seq<Node>) returns (allowed: bool)
    requires t.Valid() && forall n :: n in ns ==> n in t.nodes
    ensures allowed <==> DeleteAllowed(t.Snap(), t.root, auth, ns)
  {
    hide Tree.Snap, Tree.Valid, Inv, IdsOk, May, DeleteAllowed, Free, KidsOf;
    t.Sound();
    ghost var s, root := t.Snap(), t.root;
    if auth.None? {
      AnyoneMay(s, root, ns);
      return true;
    }
    ghost var all := Free(s, root, auth, OpDelete);
    FreeIsAllowed(s, root, auth, ns);
    var i := 0;
    while i < |ns|
      invariant 0 <= i <= |ns|
      invariant forall k :: 0 <= k < i ==> ns[k] in all
    {
      var n := ns[i];
      t.Fields(n);
      KidsOfRecord(s, n);
      FreeParts(s, root, auth, OpDelete, n);
      var may := t.RequireOp(auth, OpDelete, n);
      if !may {
        return false;
      }
      var below := SubtreeAllows(t, auth, OpDelete, n);
      if !below {
        return false;
      }
      i := i + 1;
    }
    return true;
  }

  // --- what a relink would drop -------------------------------------------------------------

  method DroppedByFirstChild(t: Tree, parent: Node, newFirst: Node?) returns (ns: seq<Node>)
    requires parent in t.nodes
    ensures ns == DroppedByFirst(t.Snap(), parent, newFirst)
  {
    hide Tree.Snap;
    t.Fields(parent);
    if newFirst == null {
      return parent.children;
    }
    var index := t.IndexOfChild(parent, newFirst);
    return if index <= 0 then [] else parent.children[..index];
  }

  method DroppedByNextSibling(t: Tree, node: Node, newNext: Node?) returns (ns: seq<Node>)
    requires node in t.nodes && (node.parent != null ==> node.parent in t.nodes)
    ensures ns == DroppedByNext(t.Snap(), node, newNext)
  {
    hide Tree.Snap;
    t.Fields(node);
    var parent := node.parent;
    if parent == null {
      return [];
    }
    t.Fields(parent);
    var index := t.IndexOfChild(parent, node);
    if index < 0 {
      return [];
    }
    if newNext == null {
      return parent.children[index + 1..];
    }
    var newIndex := t.IndexOfChild(parent, newNext);
    return if newIndex <= index + 1 then [] else parent.children[index + 1..newIndex];
  }

  lemma DroppedInside(s: Snap, root: Node, n: Node, other: Node?)
    requires Inv(s, root) && n in s
    ensures forall c :: c in DroppedByFirst(s, n, other) ==> c in s
    ensures forall c :: c in DroppedByNext(s, n, other) ==> c in s
  {
    hide Acyclic, Distinct, IndexOf;
  }

  // --- resolving ----------------------------------------------------------------------------------

  method ResolveExactlyOne(t: Tree, env: Engine, expr: Bytes, auth: Option<Checker>) returns (r: Result<Node, SetError>)
    requires t.Valid()
    ensures r == ResolveOne(env, t.Snap(), t.root, auth, expr)
    ensures r.Ok? ==> r.value in t.nodes
  {
    hide Tree.Snap, Tree.Valid, TreeRead.Evaluate, Parse;
    var parsed := ParseExpression(env.re, expr);
    if parsed.Err? {
      return Err(BadTarget(parsed.error));
    }
    var matches := t.Evaluate(env, parsed.value, auth);
    if |matches| != 1 {
      return Err(MatchCount(|matches|));
    }
    return Ok(matches[0]);
  }

  method ResolveChildPointer(t: Tree, env: Engine, p: NodePointer, auth: Option<Checker>)
    returns (r: Result<Node?, SetError>)
    requires t.Valid()
    ensures r == ResolvePointer(env, t.Snap(), t.root, auth, p)
    ensures r.Ok? && r.value != null ==> r.value in t.nodes
  {
    hide Tree.Snap, Tree.Valid, ResolveOne;
    if p.NonePointer? {
      return Ok(null);
    }
    if !p.AbsolutePointer? {
      return Err(OffsetNotAllowed);
    }
    var one := ResolveExactlyOne(t, env, p.expr, auth);
    return if one.Err? then Err(one.error) else Ok(one.value);
  }

  // --- planning -------------------------------------------------------------------------------------

  ghost predicate DeniesWrite(s: Snap, auth: Option<Checker>, ns: seq<Node>) {
    exists n :: n in ns && Grounded(s, n) && !May(s, auth, OpWrite, n)
  }

  method RequireWriteAll(t: Tree, auth: Option<Checker>, ns: seq<Node>) returns (allowed: bool)
    requires t.Valid() && forall n :: n in ns ==> n in t.nodes
    ensures allowed <==> !DeniesWrite(t.Snap(), auth, ns)
  {
    hide Tree.Snap, Tree.Valid, Inv, IdsOk, May;
    ghost var s := t.Snap();
    var i := 0;
    while i < |ns|
      invariant 0 <= i <= |ns|
      invariant forall k :: 0 <= k < i ==> Grounded(s, ns[k]) && May(s, auth, OpWrite, ns[k])
    {
      var may := t.RequireOp(auth, OpWrite, ns[i]);
      if !may {
        assert ns[i] in ns;
        return false;
      }
      i := i + 1;
    }
    return true;
  }

  method PlanFirstChild(t: Tree, env: Engine, auth: Option<Checker>, targets: seq<Node>, e: SetEdit)
    returns (r: Result<Option<Node?>, SetError>)
    requires t.Valid() && (e.newFirstChild.Some? ==> |targets| == 1) && forall n :: n in targets ==> n in t.nodes
    ensures t.Valid() && r == PlanFirst(env, t.Snap(), t.root, auth, targets, e)
    ensures r.Ok? && r.value.Some? && r.value.value != null ==> r.value.value in t.nodes
  {
    hide Tree.Snap, Tree.Valid, Inv, IdsOk, DeleteAllowed, DroppedByFirst, DroppedByNext, ResolvePointer;
    t.Sound();
    if e.newFirstChild.None? {
      return Ok(None);
    }
    var n := ResolveChildPointer(t, env, e.newFirstChild.value, auth);
    if n.Err? {
      return Err(n.error);
    }
    DroppedInside(t.Snap(), t.root, targets[0], n.value);
    var dropped := DroppedByFirstChild(t, targets[0], n.value);
    var allowed := RequireDeleteAll(t, auth, dropped);
    return if allowed then Ok(Some(n.value)) else Err(Denied);
  }

  method PlanNextSibling(t: Tree, env: Engine, auth: Option<Checker>, targets: seq<Node>, e: SetEdit)
    returns (r: Result<Option<Node?>, SetError>)
    requires t.Valid() && (e.newNextSibling.Some? ==> |targets| == 1) && forall n :: n in targets ==> n in t.nodes
    ensures t.Valid() && r == PlanNext(env, t.Snap(), t.root, auth, targets, e)
    ensures r.Ok? && r.value.Some? && r.value.value != null ==> r.value.value in t.nodes
  {
    hide Tree.Snap, Tree.Valid, Inv, IdsOk, DeleteAllowed, DroppedByFirst, DroppedByNext, ResolvePointer, ParentOf;
    t.Sound();
    if e.newNextSibling.None? {
      return Ok(None);
    }
    var n := ResolveChildPointer(t, env, e.newNextSibling.value, auth);
    if n.Err? {
      return Err(n.error);
    }
    DroppedInside(t.Snap(), t.root, targets[0], n.value);
    t.ParentKnown(targets[0]);
    var dropped := DroppedByNextSibling(t, targets[0], n.value);
    var allowed := RequireDeleteAll(t, auth, dropped);
    return if allowed then Ok(Some(n.value)) else Err(Denied);
  }

  method PlanNewParent(t: Tree, env: Engine, staging: Node?, auth: Option<Checker>, targets: seq<Node>,
                       e: SetEdit) returns (r: Result<Option<Node>, SetError>)
    requires t.Valid() && (e.newParent.Some? ==> |targets| == 1) && forall n :: n in targets ==> n in t.nodes
    ensures t.Valid() && r == PlanParent(env, t.Snap(), t.root, staging, auth, targets, e)
    ensures r.Ok? && r.value.Some? ==> r.value.value in t.nodes
  {
    hide Tree.Snap, Tree.Valid, Inv, IdsOk, ResolveOne, Descends, May;
    t.Sound();
    if e.newParent.None? {
      return Ok(None);
    }
    if staging == null {
      return Err(NotStaged);
    }
    var staged := t.IsDescendant(staging, targets[0]);
    if !staged {
      return Err(NotStaged);
    }
    var n := ResolveExactlyOne(t, env, e.newParent.value, auth);
    if n.Err? {
      return Err(n.error);
    }
    var may := t.RequireOp(auth, OpWrite, n.value);
    if !may {
      return Err(Denied);
    }
    var below := t.IsDescendant(targets[0], n.value);
    if n.value == targets[0] || below {
      return Err(WouldCycle);
    }
    return Ok(Some(n.value));
  }

  method PlanOne(t: Tree, env: Engine, staging: Node?, auth: Option<Checker>, e: SetEdit)
    returns (r: Result<Plan, SetError>)
    requires t.Valid()
    ensures t.Valid() && r == PlanEdit(env, t.Snap(), t.root, staging, auth, e)
    ensures r.Ok? ==> Known(t.nodes, r.value)
  {
    hide Tree.Snap, Tree.Valid, Inv, IdsOk, PlanParts, May, TreeRead.Evaluate, Parse, Known;
    t.Sound();
    var parsed := ParseExpression(env.re, e.target);
    if parsed.Err? {
      return Err(BadTarget(parsed.error));
    }
    var targets := t.Evaluate(env, parsed.value, auth);
    var structural := e.newFirstChild.Some? || e.newNextSibling.Some? || e.newParent.Some?;
    if structural && |targets| != 1 {
      return Err(MatchCount(|targets|));
    }
    if e.newValue.Some? {
      var allowed := RequireWriteAll(t, auth, targets);
      if !allowed {
        return Err(Denied);
      }
    }
    if structural {
      var may := t.RequireOp(auth, OpWrite, targets[0]);
      if !may {
        return Err(Denied);
      }
    }
    r := PlanStructure(t, env, staging, auth, targets, e);
  }

  method PlanStructure(t: Tree, env: Engine, staging: Node?, auth: Option<Checker>, targets: seq<Node>,
                       e: SetEdit) returns (r: Result<Plan, SetError>)
    requires t.Valid() && forall n :: n in targets ==> n in t.nodes
    requires e.newFirstChild.Some? || e.newNextSibling.Some? || e.newParent.Some? ==> |targets| == 1
    ensures t.Valid() && r == PlanParts(env, t.Snap(), t.root, staging, auth, targets, e)
    ensures r.Ok? ==> Known(t.nodes, r.value)
  {
    hide Tree.Snap, Tree.Valid, Inv, IdsOk, PlanFirst, PlanNext, PlanParent;
    t.Sound();
    var first :- PlanFirstChild(t, env, auth, targets, e);
    var next :- PlanNextSibling(t, env, auth, targets, e);
    var newParent :- PlanNewParent(t, env, staging, auth, targets, e);
    return Ok(Plan(targets, e.newValue, first, next, newParent));
  }

  method PlanEdits(t: Tree, env: Engine, staging: Node?, auth: Option<Checker>, edits: seq<SetEdit>)
    returns (r: Result<seq<Plan>, SetError>)
    requires t.Valid()
    ensures t.Valid() && r == PlanAll(env, t.Snap(), t.root, staging, auth, edits)
    ensures r.Ok? ==> forall i :: 0 <= i < |r.value| ==> Known(t.nodes, r.value[i])
  {
    hide Tree.Snap, Tree.Valid, Inv, IdsOk, PlanEdit, Known;
    t.Sound();
    ghost var s, root := t.Snap(), t.root;
    var plans: seq<Plan> := [];
    var i := 0;
    while i < |edits|
      invariant 0 <= i <= |edits|
      invariant PlanAll(env, s, root, staging, auth, edits[..i]) == Ok(plans)
      invariant forall k :: 0 <= k < |plans| ==> Known(t.nodes, plans[k])
    {
      assert edits[..i + 1][..i] == edits[..i];
      var p := PlanOne(t, env, staging, auth, edits[i]);
      i := i + 1;
      if p.Err? {
        PlanningStops(env, s, root, staging, auth, edits, i);
        return Err(p.error);
      }
      plans := plans + [p.value];
    }
    assert edits[..|edits|] == edits;
    return Ok(plans);
  }

  lemma {:induction false} PlanningStops(env: Engine, s: Snap, root: Node, staging: Node?, auth: Option<Checker>,
                                         edits: seq<SetEdit>, i: nat)
    requires Inv(s, root) && i <= |edits| && PlanAll(env, s, root, staging, auth, edits[..i]).Err?
    ensures PlanAll(env, s, root, staging, auth, edits) == PlanAll(env, s, root, staging, auth, edits[..i])
  {
    hide PlanEdit, Inv;
    if i < |edits| {
      var n := |edits| - 1;
      assert edits[..n][..i] == edits[..i];
      PlanningStops(env, s, root, staging, auth, edits[..n], i);
    } else {
      assert edits[..i] == edits;
    }
  }

  // --- whole requests -------------------------------------------------------------------------------

  /** SetAs: everything is planned before anything is applied. */
  method SetRequest(t: Tree, env: Engine, staging: Node?, auth: Option<Checker>, edits: seq<SetEdit>)
    returns (r: Result<seq<Node>, SetError>)
    requires t.Valid()
    modifies t.nodes
    ensures Inv(old(t.Snap()), t.root)
    ensures (t.Snap(), r) == TreePlan.SetAs(env, old(t.Snap()), t.root, staging, auth, edits)
    ensures t.Valid() <==> Inv(t.Snap(), t.root)
  {
    hide Tree.Snap, Tree.Valid, Inv, IdsOk, PlanAll, Apply, Rollback, Known, PlansOk;
    t.Sound();
    ghost var s, root := t.Snap(), t.root;
    var plans := PlanEdits(t, env, staging, auth, edits);
    if plans.Err? {
      return Err(plans.error);
    }
    PlanAllOk(env, s, root, staging, auth, edits);
    r := ApplySetPlans(t, plans.value);
    SetLeavesValid(t, s, env, staging, auth, edits);
  }

  lemma SetLeavesValid(t: Tree, s: Snap, env: Engine, staging: Node?, auth: Option<Checker>, edits: seq<SetEdit>)
    requires Sane(State(s, t.lastID), t.root)
    requires t.Snap() == TreePlan.SetAs(env, s, t.root, staging, auth, edits).0
    ensures t.Valid() <==> Inv(t.Snap(), t.root)
  {
    hide Tree.Snap, ReachSet, Inv, IdsOk, TreePlan.SetAs;
    SetKeepsIds(env, State(s, t.lastID), t.root, staging, auth, edits);
  }

  method DeleteRequest(t: Tree, env: Engine, auth: Option<Checker>, targets: seq<Bytes>)
    returns (r: Result<seq<Node>, SetError>)
    requires t.Valid()
    modifies t.nodes
    ensures t.Valid()
    ensures Inv(old(t.Snap()), t.root)
    ensures (t.Snap(), r) == TreeDelete.DeleteAs(env, old(t.Snap()), t.root, auth, targets)
  {
    hide Tree.Snap, Tree.Valid, Inv, IdsOk, DeleteAllowed, FirstSeen, MatchAll, RemoveAll;
    t.Sound();
    ghost var s, root := t.Snap(), t.root;
    var matched := MatchTargets(t, env, auth, targets);
    if matched.Err? {
      return Err(matched.error);
    }
    var allowed := RequireDeleteAll(t, auth, matched.value);
    if !allowed {
      return Err(Denied);
    }
    RemoveMatched(t, env, auth, targets, matched.value);
    return Ok(matched.value);
  }

  /** The matches of all targets, each once. */
  method MatchTargets(t: Tree, env: Engine, auth: Option<Checker>, targets: seq<Bytes>)
    returns (r: Result<seq<Node>, SetError>)
    requires t.Valid()
    ensures r == match MatchAll(env, t.Snap(), t.root, auth, targets) case Ok(ms) => Ok(FirstSeen(ms)) case Err(e) => Err(e)
    ensures r.Ok? ==> forall n :: n in r.value ==> n in t.nodes
  {
    hide Tree.Snap, Tree.Valid, Inv, IdsOk, TreeRead.Evaluate, Parse, TouchAll, Touch;
    ghost var s, root := t.Snap(), t.root;
    ghost var all: seq<Node> := [];
    var matched: seq<Node> := [];
    var seen: set<Node> := {};
    TouchNone([]);
    var i := 0;
    while i < |targets|
      invariant 0 <= i <= |targets|
      invariant MatchAll(env, s, root, auth, targets[..i]) == Ok(all) && matched == FirstSeen(all)
      invariant seen == Members(matched) && forall n :: n in matched ==> n in t.nodes
    {
      assert targets[..i + 1][..i] == targets[..i];
      var parsed := ParseExpression(env.re, targets[i]);
      i := i + 1;
      if parsed.Err? {
        MatchingStops(env, s, root, auth, targets, i);
        return Err(BadTarget(parsed.error));
      }
      var found := t.Evaluate(env, parsed.value, auth);
      TouchAllConcat([], all, found);
      matched, seen := TouchEach(matched, seen, found);
      all := all + found;
    }
    assert targets[..|targets|] == targets;
    return Ok(matched);
  }

  lemma TouchNone(acc: seq<Node>)
    ensures TouchAll(acc, []) == acc
  {
  }

  method TouchEach(matched: seq<Node>, seen: set<Node>, found: seq<Node>) returns (matched': seq<Node>, seen': set<Node>)
    requires seen == Members(matched)
    ensures matched' == TouchAll(matched, found) && seen' == Members(matched')
    ensures forall n :: n in matched' ==> n in matched || n in found
  {
    matched', seen' := matched, seen;
    var i := 0;
    while i < |found|
      invariant 0 <= i <= |found|
      invariant matched' == TouchAll(matched, found[..i]) && seen' == Members(matched')
      invariant forall n :: n in matched' ==> n in matched || n in found
    {
      assert found[..i + 1][..i] == found[..i];
      if found[i] !in seen' {
        seen' := seen' + {found[i]};
        matched' := matched' + [found[i]];
      }
      i := i + 1;
    }
    assert found[..|found|] == found;
  }

  lemma {:induction false} MatchingStops(env: Engine, s: Snap, root: Node, auth: Option<Checker>,
                                         targets: seq<Bytes>, i: nat)
    requires i <= |targets| && MatchAll(env, s, root, auth, targets[..i]).Err?
    ensures MatchAll(env, s, root, auth, targets) == MatchAll(env, s, root, auth, targets[..i])
  {
    hide Parse, TreeRead.Evaluate;
    if i < |targets| {
      var n := |targets| - 1;
      assert targets[..n][..i] == targets[..i];
      MatchingStops(env, s, root, auth, targets[..n], i);
    } else {
      assert targets[..i] == targets;
    }
  }

  method RemoveMatched(t: Tree, env: Engine, auth: Option<Checker>, targets: seq<Bytes>, matched: seq<Node>)
    requires t.Valid() && MatchAll(env, t.Snap(), t.root, auth, targets).Ok?
    requires matched == FirstSeen(MatchAll(env, t.Snap(), t.root, auth, targets).value)
    modifies t.nodes
    ensures t.Valid() && t.Snap() == RemoveAll(old(t.Snap()), matched)
  {
    hide Tree.Snap, Tree.Valid, Inv, IdsOk, MatchAll, FirstSeen, NoDup, WithChildren, Remove, KidsOf, ParentOf, Without;
    t.Sound();
    ghost var s, root := t.Snap(), t.root;
    MatchesAttached(env, s, root, auth, targets);
    var i := 0;
    while i < |matched|
      invariant 0 <= i <= |matched|
      invariant t.Snap() == RemoveAll(s, matched[..i])
    {
      var n := matched[i];
      assert matched[..i + 1] == matched[..i] + [n];
      RemoveOneMore(s, matched[..i], n);
      EachIsStillThere(s, root, matched, i);
      t.Fields(n);
      RemovedParentKnown(s, root, matched, i);
      t.Fields(n.parent);
      t.RemoveChild(n.parent, n);
      i := i + 1;
    }
    assert matched[..|matched|] == matched;
    RemoveAllIsWithout(s, root, matched);
    WithoutKeepsInv(s, t.Snap(), root, Members(matched));
    WithoutFields(s, t.Snap(), Members(matched));
    t.StillSound(s);
  }

  lemma RemoveOneMore(s: Snap, ns: seq<Node>, n: Node)
    ensures RemoveAll(s, ns + [n]) == RemoveFromParent(RemoveAll(s, ns), n)
  {
    assert (ns + [n])[..|ns|] == ns;
  }

  lemma RemovedParentKnown(s: Snap, root: Node, ns: seq<Node>, k: nat)
    requires Inv(s, root) && k < |ns| && forall n :: n in ns ==> n in s
    ensures var p := ParentOf(RemoveAll(s, ns[..k]), ns[k]); p != null ==> p in s
  {
    hide Inv, RemoveAll, KeepNodes;
    assert ns[k] in ns;
    RemoveAllIsWithout(s, root, ns[..k]);
    ParentInside(s, root, ns[k]);
  }

  lemma MatchesAttached(env: Engine, s: Snap, root: Node, auth: Option<Checker>, targets: seq<Bytes>)
    requires Inv(s, root) && MatchAll(env, s, root, auth, targets).Ok?
    ensures var ns := FirstSeen(MatchAll(env, s, root, auth, targets).value);
            NoDup(ns) && forall n :: n in ns ==> n in s && s[n].parent != null && n in KidsOf(s, s[n].parent)
  {
    hide Inv, MatchAll, FirstSeen, NoDup, KidsOf, MatchedBy;
    MatchedMembers(env, s, root, auth, targets);
    forall n | n in FirstSeen(MatchAll(env, s, root, auth, targets).value)
      ensures n in s && s[n].parent != null && n in KidsOf(s, s[n].parent)
    {
      assert n in Matched(env, s, root, auth, targets);
      MatchedIsReachable(env, s, root, auth, targets, n);
    }
  }
}
