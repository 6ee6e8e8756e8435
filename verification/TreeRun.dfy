/**
 * Whole runs: any sequence of the tree's operations, by any callers, from a new tree
 * on. The invariant holds throughout, ids never change, and a node that was cut loose
 * never comes back.
 */
module TreeRun {
  import opened Basics
  import opened WireTypes
  import opened Authz
  import opened TreeState
  import opened TreeRead
  import opened TreeSet
  import opened TreeSetSafety
  import opened TreePlan
  import opened TreeSetTheorems
  import opened TreeSetExact
  import opened TreeSetOneMove
  import opened TreeDelete
  import opened TreeGrow
  import opened UndoLog

  // --- which Sets --------------------------------------------------------------------------

  /**
   * What a caller can check of a planned Set: each newNextSibling lies after its target,
   * and at most one edit, the k-th, has a newParent, with no newNextSibling of the node
   * it moves after it.
   */
  ghost predicate Tame(s: Snap, plans: seq<Plan>)
    requires PlansOk(s.Keys, plans)
  {
    AllForward(s, plans) && exists k: nat :: OnlyMove(s.Keys, plans, k)
  }

  ghost predicate OnlyMove(keys: set<Node>, plans: seq<Plan>, k: nat)
    requires PlansOk(keys, plans)
  {
    && (forall i :: 0 <= i < |plans| && i != k ==> plans[i].newParent.None?)
    && (k < |plans| && plans[k].newParent.Some? ==>
          forall i :: k < i < |plans| && plans[i].next.Some? ==> plans[i].targets[0] != plans[k].targets[0])
  }

  lemma TameIsCareful(s: Snap, root: Node, auth: Option<Checker>, plans: seq<Plan>)
    requires Inv(s, root) && PlansOk(s.Keys, plans) && AllSound(s, root, auth, plans) && Tame(s, plans)
    ensures Careful(root, s, plans)
  {
    hide Inv, May, DeleteAllowed, Subtree, AllForward, Careful, ReachSet;
    var k: nat :| OnlyMove(s.Keys, plans, k);
    if k < |plans| && plans[k].newParent.Some? {
      assert Sound(s, root, auth, plans[k]);
      RootHasNoParent(s, root);
    }
    OneMoveIsCareful(root, s, plans, k);
  }

  lemma {:induction false} OnAtMost<V>(w: seq<(Node, V)>, n: Node)
    ensures |On(w, n)| <= |w|
  {
    if w != [] {
      OnAtMost(w[..|w| - 1], n);
    }
  }

  lemma {:induction false} FewMoves(keys: set<Node>, plans: seq<Plan>, k: nat)
    requires PlansOk(keys, plans) && forall i :: 0 <= i < |plans| && i != k ==> plans[i].newParent.None?
    ensures |AllMoves(keys, plans)| <= if k < |plans| then 1 else 0
  {
    if plans != [] {
      FewMoves(keys, plans[..|plans| - 1], k);
    }
  }

  /**
   * Which planned Sets keep the tree sound. One that succeeds: the parents written last
   * make no circle, and each newNextSibling lies ahead as it is met, or the lists have
   * come to fit those parents all the same. One that conflicts: each node moved before
   * the conflict was moved once, or its next-to-last move put it back.
   */
  ghost predicate ProperPlans(root: Node, s: Snap, plans: seq<Plan>)
    requires PlansOk(s.Keys, plans)
  {
    if Apply(s, plans).Done? then LastParentsFit(root, s, plans) && (AheadAsMet(s, plans) || ListsFit(s, plans))
    else MovesUndo(s, AllMoves(s.Keys, plans[..FailsAt(s, plans)]))
  }

  ghost predicate ProperSet(env: Engine, st: State, root: Node, staging: Node?, auth: Option<Checker>,
                            edits: seq<SetEdit>)
    requires Inv(st.s, root)
  {
    var plans := PlanAll(env, st.s, root, staging, auth, edits);
    plans.Ok? ==> PlansOk(st.s.Keys, plans.value) && ProperPlans(root, st.s, plans.value)
  }

  /** Tame requests are proper ones, whether they succeed or conflict. */
  lemma TameIsProper(root: Node, s: Snap, auth: Option<Checker>, plans: seq<Plan>)
    requires Inv(s, root) && PlansOk(s.Keys, plans) && AllSound(s, root, auth, plans) && Tame(s, plans)
    ensures ProperPlans(root, s, plans)
  {
    hide Inv, Apply, AllForward, Careful, AllMoves, On, Sound, LastParentsFit, AheadAsMet, InvAlong, ListsFit;
    if Apply(s, plans).Done? {
      TameIsCareful(s, root, auth, plans);
      CarefulIsAhead(root, s, plans);
      ApplyKeepsInv(root, s, plans);
      SuccessExact(root, s, plans);
    } else {
      var only: nat :| OnlyMove(s.Keys, plans, only);
      var m := AllMoves(s.Keys, plans[..FailsAt(s, plans)]);
      FewMoves(s.Keys, plans[..FailsAt(s, plans)], only);
      forall n | n in s
        ensures Undoes(s[n].parent, On(m, n))
      {
        OnAtMost(m, n);
      }
    }
  }

  lemma SoundRootStays(s: Snap, root: Node, auth: Option<Checker>, plans: seq<Plan>)
    requires Inv(s, root) && PlansOk(s.Keys, plans) && AllSound(s, root, auth, plans)
    ensures RootStays(s, plans)
  {
    hide Inv, May, DeleteAllowed, Subtree, ReachSet;
    forall i | 0 <= i < |plans| && plans[i].newParent.Some?
      ensures s[plans[i].targets[0]].parent != null
    {
      assert Sound(s, root, auth, plans[i]);
    }
  }

  /**
   * That is exact: a planned Set, whatever it mixes and whether it succeeds or conflicts,
   * leaves a tree that satisfies the invariant if and only if it is proper.
   */
  lemma ProperIsExact(env: Engine, s: Snap, root: Node, staging: Node?, auth: Option<Checker>, edits: seq<SetEdit>)
    requires Inv(s, root) && PlanAll(env, s, root, staging, auth, edits).Ok?
    ensures var plans := PlanAll(env, s, root, staging, auth, edits).value;
            && PlansOk(s.Keys, plans)
            && (Inv(SetAs(env, s, root, staging, auth, edits).0, root) <==> ProperPlans(root, s, plans))
            && (Apply(s, plans).Done? && AheadAsMet(s, plans) ==> ListsFit(s, plans))
  {
    hide PlanAll, Inv, ReachSet, Rollback, Apply, LastParentsFit, MovesUndo, AllMoves, FailsAt, Sound, Shape,
         AheadAsMet, ListsFit, PlansOk, RootStays, PlanEdit;
    var plans := PlanAll(env, s, root, staging, auth, edits).value;
    PlanAllOk(env, s, root, staging, auth, edits);
    PlanAllSound(env, s, root, staging, auth, edits);
    if Apply(s, plans).Done? {
      SuccessExact(root, s, plans);
      if AheadAsMet(s, plans) {
        InvHasShape(s, root);
        AheadExact(root, s, plans);
      }
    } else {
      SoundRootStays(s, root, auth, plans);
      ConflictExact(root, s, plans);
    }
  }

  /** Whatever a Set does, ids are kept. */
  lemma SetKeepsIds(env: Engine, st: State, root: Node, staging: Node?, auth: Option<Checker>, edits: seq<SetEdit>)
    requires Sane(st, root)
    ensures var s' := SetAs(env, st.s, root, staging, auth, edits).0;
            IdsOk(s', root, st.last) && s'.Keys == st.s.Keys && forall n :: n in st.s ==> s'[n].id == st.s[n].id
  {
    hide PlanAll, Inv, IdsOk, ReachSet, Careful, Rollback, PlansOk, Apply, MovesUndo, AllMoves, FailsAt, RootStays, Sound,
         PlanEdit;
    var s := st.s;
    var plans := PlanAll(env, s, root, staging, auth, edits);
    var s' := SetAs(env, s, root, staging, auth, edits).0;
    if plans.Ok? {
      PlanAllOk(env, s, root, staging, auth, edits);
      if Apply(s, plans.value).Done? {
        ApplyKeepsKeys(s, plans.value);
      } else {
        PlanAllSound(env, s, root, staging, auth, edits);
        SoundRootStays(s, root, auth, plans.value);
        ConflictExact(root, s, plans.value);
      }
    }
    IdsKept(s, s', root, st.last);
  }

  /** A proper Set, successful or not, keeps the invariant and the ids, and brings nothing back. */
  lemma SetKeepsSane(env: Engine, st: State, root: Node, staging: Node?, auth: Option<Checker>, edits: seq<SetEdit>)
    requires Sane(st, root) && ProperSet(env, st, root, staging, auth, edits)
    ensures Grows(st, State(SetAs(env, st.s, root, staging, auth, edits).0, st.last), root, {})
  {
    hide PlanAll, Inv, IdsOk, ReachSet, PlansOk, Apply, SetAs, ProperPlans;
    SetOutcome(env, st.s, root, staging, auth, edits);
    SetKeepsIds(env, st, root, staging, auth, edits);
    ProperSetKeepsInv(env, st.s, root, staging, auth, edits);
  }

  lemma ProperSetKeepsInv(env: Engine, s: Snap, root: Node, staging: Node?, auth: Option<Checker>, edits: seq<SetEdit>)
    requires Inv(s, root)
    requires var plans := PlanAll(env, s, root, staging, auth, edits);
             plans.Ok? ==> PlansOk(s.Keys, plans.value) && ProperPlans(root, s, plans.value)
    ensures Inv(SetAs(env, s, root, staging, auth, edits).0, root)
  {
    hide PlanAll, Inv, PlansOk, Apply, ProperPlans, Rollback, AheadAsMet, ListsFit;
    var plans := PlanAll(env, s, root, staging, auth, edits);
    if plans.Ok? {
      ProperIsExact(env, s, root, staging, auth, edits);
    }
  }

  lemma IdsKept(s: Snap, s': Snap, root: Node, last: nat)
    requires IdsOk(s, root, last) && s'.Keys == s.Keys && forall n :: n in s ==> s'[n].id == s[n].id
    ensures IdsOk(s', root, last)
  {
  }

  /** A Delete does too. */
  lemma DeleteKeepsSane(env: Engine, st: State, root: Node, auth: Option<Checker>, targets: seq<Bytes>)
    requires Sane(st, root)
    ensures Grows(st, State(DeleteAs(env, st.s, root, auth, targets).0, st.last), root, {})
  {
    hide Inv, IdsOk, ReachSet, DeleteAs, Without, UnderAny, May, Matched;
    var s := st.s;
    var (s', r) := DeleteAs(env, s, root, auth, targets);
    RootHasNoParent(s, root);
    DeleteOutcome(env, s, root, auth, targets, root);
    if r.Ok? {
      DeleteRemovesMatches(env, s, root, auth, targets);
      WithoutFields(s, s', Matched(env, s, root, auth, targets));
      forall n | n in s
        ensures n in ReachSet(s', root) ==> n in ReachSet(s, root)
      {
        DeleteOutcome(env, s, root, auth, targets, n);
      }
      ReachInside(s', root);
    }
    IdsKept(s, s', root, st.last);
  }

  lemma ReachInside(s: Snap, root: Node)
    ensures ReachSet(s, root) <= s.Keys
  {
  }

  // --- runs ----------------------------------------------------------------------------------

  datatype Event =
    | SetEvent(auth: Option<Checker>, staging: Node?, edits: seq<SetEdit>)
    | DeleteEvent(auth: Option<Checker>, targets: seq<Bytes>)
    | AppendEvent(parent: Node, node: Node, value: NodeValue)
    | CreateEvent(auth: Option<Checker>, stagingRoot: Node, parentExpr: Bytes, node: Node, value: NodeValue)
    | EnsureEvent(start: Node, keys: seq<Bytes>, made: seq<Node>)
    | LeavesEvent(parent: Node, top: Node, leaves: seq<Node>, values: seq<NodeValue>)

  /** What holds of an operation's arguments: known nodes, attached or not, and nodes that are new. */
  ghost predicate Proper(env: Engine, root: Node, st: State, e: Event)
    requires Inv(st.s, root)
  {
    match e
    case SetEvent(auth, staging, edits) => ProperSet(env, st, root, staging, auth, edits)
    case DeleteEvent(_, _) => true
    case AppendEvent(parent, node, _) => parent in st.s && node !in st.s
    case CreateEvent(_, staging, _, node, _) => staging in st.s && node !in st.s
    case EnsureEvent(start, keys, made) => start in st.s && Supplies(st, start, keys, made)
    case LeavesEvent(parent, top, leaves, values) =>
      && parent in st.s && |values| == |leaves| && top !in st.s
      && NoDup([top] + leaves) && forall n :: n in leaves ==> n !in st.s
  }

  ghost function Effect(env: Engine, root: Node, st: State, e: Event): State
    requires Inv(st.s, root) && Proper(env, root, st, e)
  {
    match e
    case SetEvent(auth, staging, edits) => State(SetAs(env, st.s, root, staging, auth, edits).0, st.last)
    case DeleteEvent(auth, targets) => State(DeleteAs(env, st.s, root, auth, targets).0, st.last)
    case AppendEvent(parent, node, value) => AppendUnder(st, parent, node, value)
    case CreateEvent(auth, staging, parentExpr, node, value) =>
      CreateStaged(env, st, root, auth, staging, parentExpr, node, value).0
    case EnsureEvent(start, keys, made) => EnsurePath(st, start, keys, made).0
    case LeavesEvent(parent, top, leaves, values) => AppendLeafSubtree(st, parent, top, leaves, values)
  }

  /** Whatever the operation: the invariant and the ids are kept, and only new nodes can become reachable. */
  lemma EffectGrows(env: Engine, root: Node, st: State, e: Event) returns (made: set<Node>)
    requires Sane(st, root) && Proper(env, root, st, e)
    ensures Grows(st, Effect(env, root, st, e), root, made) && made !! st.s.Keys
  {
    hide SetAs, DeleteAs, AppendUnder, CreateStaged, EnsurePath, AppendLeafSubtree, Inv, IdsOk, Grows, ProperSet, NoDup;
    match e
    case SetEvent(auth, staging, edits) =>
      made := {};
      SetKeepsSane(env, st, root, staging, auth, edits);
    case DeleteEvent(auth, targets) =>
      made := {};
      DeleteKeepsSane(env, st, root, auth, targets);
    case AppendEvent(parent, node, value) =>
      made := {node};
      AppendUnderGrows(st, root, parent, node, value);
    case CreateEvent(auth, staging, parentExpr, node, value) =>
      CreateStaysStaged(env, st, root, auth, staging, parentExpr, node, value);
      GrowsNothing(st, root);
      made := if CreateStaged(env, st, root, auth, staging, parentExpr, node, value).1.Ok? then {node} else {};
    case EnsureEvent(start, keys, nodes) =>
      made := Members(nodes);
      EnsurePathGrows(st, root, start, keys, nodes);
      SuppliesNew(st, root, start, keys, nodes);
    case LeavesEvent(parent, top, leaves, values) =>
      made := {top} + Members(leaves);
      LeafSubtreeGrows(st, root, parent, top, leaves, values);
  }

  lemma {:induction false} SuppliesNew(st: State, root: Node, start: Node, keys: seq<Bytes>, made: seq<Node>)
    requires Sane(st, root) && start in st.s && Supplies(st, start, keys, made)
    ensures forall n :: n in made ==> n !in st.s
    decreases |keys|
  {
    hide Inv, IdsOk, AppendUnder, ReachSet, Grows;
    if keys != [] {
      var found := FirstWithKey(st.s[start].children, keys[0]);
      FirstWithKeySpec(st.s[start].children, keys[0]);
      if found != null {
        OwnedBy(st.s, root, start, found);
        SuppliesNew(st, root, found, keys[1..], made);
      } else {
        var next := AppendUnder(st, start, made[0], NoValue);
        AppendUnderGrows(st, root, start, made[0], NoValue);
        GrownSane(st, next, root, {made[0]});
        SuppliesNew(next, root, made[0], keys[1..], made[1..]);
      }
    }
  }

  ghost predicate Run(env: Engine, root: Node, states: seq<State>, events: seq<Event>) {
    && |states| == |events| + 1
    && Sane(states[0], root)
    && forall i :: 0 <= i < |events| ==> Step(env, root, states[i], events[i], states[i + 1])
  }

  ghost predicate Step(env: Engine, root: Node, st: State, e: Event, t: State) {
    Sane(st, root) ==> Proper(env, root, st, e) && t == Effect(env, root, st, e)
  }

  /** The invariant holds in every state of every run. */
  lemma {:induction false} RunKeepsInvariant(env: Engine, root: Node, states: seq<State>, events: seq<Event>, i: nat)
    requires Run(env, root, states, events) && i < |states|
    ensures Sane(states[i], root)
  {
    if i > 0 {
      hide Sane, Proper, Effect, Grows;
      RunKeepsInvariant(env, root, states, events, i - 1);
      assert Step(env, root, states[i - 1], events[i - 1], states[i]);
      var made := EffectGrows(env, root, states[i - 1], events[i - 1]);
      GrownSane(states[i - 1], states[i], root, made);
    }
  }

  /** In any run, a node keeps its id for ever, and once unreachable it is never reachable again. */
  lemma {:induction false} CutLooseForGood(env: Engine, root: Node, states: seq<State>, events: seq<Event>, i: nat,
                                           j: nat, n: Node)
    requires Run(env, root, states, events) && i <= j < |states| && n in states[i].s
    ensures n in states[j].s && states[j].s[n].id == states[i].s[n].id
    ensures n !in ReachSet(states[i].s, root) ==> n !in ReachSet(states[j].s, root)
    decreases j
  {
    hide Sane, Proper, Effect, Grows, ReachSet;
    if i < j {
      CutLooseForGood(env, root, states, events, i, j - 1, n);
      RunKeepsInvariant(env, root, states, events, j - 1);
      assert Step(env, root, states[j - 1], events[j - 1], states[j]);
      var made := EffectGrows(env, root, states[j - 1], events[j - 1]);
      GrownReach(states[j - 1], states[j], root, made, n);
    }
  }

  lemma GrownReach(st: State, t: State, root: Node, made: set<Node>, n: Node)
    requires Grows(st, t, root, made) && made !! st.s.Keys && n in st.s
    ensures n in t.s && t.s[n].id == st.s[n].id
    ensures n in ReachSet(t.s, root) ==> n in ReachSet(st.s, root)
  {
    hide Sane, ReachSet;
  }

  /** New: a tree of its root alone. */
  lemma NewTreeIsSane(root: Node)
    ensures Sane(State(map[root := Rec(NoValue, null, [], 0)], 0), root)
  {
    var s: Snap := map[root := Rec(NoValue, null, [], 0)];
    assert Climbs(s, root, 0);
  }
}
