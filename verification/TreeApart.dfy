/**
 * Nodes that no Set of a session can move: those that do not lie below the session's
 * staging node. Whatever a request does, even one that leaves the tree outside its
 * invariant, their parent chains stay as they are.
 */
module TreeApart {
  import opened Basics
  import opened WireTypes
  import opened Expression
  import opened Authz
  import opened TreeState
  import opened TreeRead
  import opened TreeSet
  import opened TreeSetExact
  import opened TreePlan
  import opened TreeSetOneMove
  import opened TreeDelete
  import opened TreeGrow
  import opened UndoLog

  /** n is known, its parent chain ends, and staging is not on it. */
  ghost predicate Apart(s: Snap, staging: Node, n: Node) {
    n in s && n != staging && Grounded(s, n) && !Descends(s, staging, n)
  }

  lemma ApartStays(s: Snap, s': Snap, staging: Node, n: Node)
    requires Apart(s, staging, n) && SameParents(s, s')
    ensures Apart(s', staging, n)
  {
    DescendsSame(s, s', staging, n);
  }

  /** The parents of nodes outside staging are enough. */
  lemma {:induction false} ChainStays(s: Snap, s': Snap, staging: Node, n: Node)
    requires Apart(s, staging, n)
    requires forall m :: m in s && Grounded(s, m) && !Descends(s, staging, m) ==> m in s' && s'[m].parent == s[m].parent
    ensures Apart(s', staging, n)
    decreases Height(s, n)
  {
    HeightStep(s, n);
    var p := s[n].parent;
    if p == null {
      assert Climbs(s', n, 0);
    } else {
      ChainStays(s, s', staging, p);
      var k: nat :| Climbs(s', p, k);
      assert Climbs(s', n, k + 1);
    }
    HeightStep(s', n);
  }

  // --- appending ------------------------------------------------------------------------------

  lemma AppendedSameParents(st: State, parent: Node, n: Node, value: NodeValue)
    requires parent in st.s && n !in st.s
    ensures SameParents(st.s, AppendUnder(st, parent, n, value).s)
  {
    hide Appended;
    AppendedFields(st.s, parent, n, value, st.last + 1);
  }

  /** A new node under one that is apart. */
  lemma NewNodeApart(st: State, staging: Node, parent: Node, n: Node, value: NodeValue)
    requires Apart(st.s, staging, parent) && staging in st.s && n !in st.s
    ensures Apart(AppendUnder(st, parent, n, value).s, staging, n)
  {
    hide Appended;
    var t := AppendUnder(st, parent, n, value);
    AppendedFields(st.s, parent, n, value, st.last + 1);
    AppendedSameParents(st, parent, n, value);
    ApartStays(st.s, t.s, staging, parent);
    var k: nat :| Climbs(t.s, parent, k);
    assert Climbs(t.s, n, k + 1);
    HeightStep(t.s, n);
  }

  lemma {:induction false} LeavesSameParents(st: State, top: Node, leaves: seq<Node>, values: seq<NodeValue>)
    requires top in st.s && |values| == |leaves| && NoDup(leaves) && forall n :: n in leaves ==> n !in st.s
    ensures SameParents(st.s, AppendLeaves(st, top, leaves, values).s)
  {
    hide AppendUnder, NoDup, HasLeaves;
    if leaves != [] {
      var k := |leaves| - 1;
      LastApart(leaves);
      assert leaves == leaves[..k] + [leaves[k]];
      NoDupInit(leaves[..k], leaves[k]);
      LeavesSameParents(st, top, leaves[..k], values[..k]);
      var before := AppendLeaves(st, top, leaves[..k], values[..k]);
      LeavesKeys(st, top, leaves[..k], values[..k]);
      AppendedSameParents(before, top, leaves[k], values[k]);
    }
  }

  lemma LeavesKeys(st: State, top: Node, leaves: seq<Node>, values: seq<NodeValue>)
    requires top in st.s && |values| == |leaves| && NoDup(leaves) && forall n :: n in leaves ==> n !in st.s
    ensures AppendLeaves(st, top, leaves, values).s.Keys == st.s.Keys + Members(leaves)
  {
    hide AppendLeaves;
    LeavesFields(st, top, top, leaves, values);
  }

  lemma SubtreeSameParents(st: State, parent: Node, top: Node, leaves: seq<Node>, values: seq<NodeValue>)
    requires parent in st.s && |values| == |leaves| && top !in st.s
    requires NoDup([top] + leaves) && forall n :: n in leaves ==> n !in st.s
    ensures SameParents(st.s, AppendLeafSubtree(st, parent, top, leaves, values).s)
  {
    hide AppendLeaves, NoDup, Appended;
    var one := AppendUnder(st, parent, top, NoValue);
    AppendedFields(st.s, parent, top, NoValue, st.last + 1);
    AppendedSameParents(st, parent, top, NoValue);
    NoDupCons(top, leaves);
    LeavesSameParents(one, top, leaves, values);
  }

  // --- Delete and Set ---------------------------------------------------------------------------

  lemma DeleteKeepsApart(env: Engine, s: Snap, root: Node, auth: Option<Checker>, targets: seq<Bytes>, staging: Node,
                         n: Node)
    requires Inv(s, root) && Apart(s, staging, n)
    ensures Apart(DeleteAs(env, s, root, auth, targets).0, staging, n)
  {
    hide Inv, DeleteAs, Matched, Apart;
    var (s', r) := DeleteAs(env, s, root, auth, targets);
    if r.Ok? {
      DeleteRemovesMatches(env, s, root, auth, targets);
      WithoutFields(s, s', Matched(env, s, root, auth, targets));
    } else {
      DeleteError(env, s, root, auth, targets);
    }
    ApartStays(s, s', staging, n);
  }

  /** Only staged nodes are moved. */
  lemma {:induction false} MovedIsStaged(s: Snap, staging: Node, plans: seq<Plan>, n: Node)
    requires PlansOk(s.Keys, plans) && On(AllMoves(s.Keys, plans), n) != []
    requires forall i :: 0 <= i < |plans| && plans[i].newParent.Some? ==>
               Grounded(s, plans[i].targets[0]) && Descends(s, staging, plans[i].targets[0])
    ensures Grounded(s, n) && Descends(s, staging, n)
  {
    if plans != [] {
      hide Descends, Grounded;
      var k := |plans| - 1;
      OnConcat(AllMoves(s.Keys, plans[..k]), MoveWrites(plans[k]), n);
      if On(AllMoves(s.Keys, plans[..k]), n) != [] {
        MovedIsStaged(s, staging, plans[..k], n);
      } else if plans[k].newParent.Some? {
        OnOne(plans[k].targets[0], plans[k].newParent.value, n);
      }
    }
  }

  lemma PlannedMovesAreStaged(env: Engine, s: Snap, root: Node, staging: Node, auth: Option<Checker>, edits: seq<SetEdit>)
    requires Inv(s, root) && PlanAll(env, s, root, staging, auth, edits).Ok?
    ensures var plans := PlanAll(env, s, root, staging, auth, edits).value;
            PlansOk(s.Keys, plans) && forall i :: 0 <= i < |plans| && plans[i].newParent.Some? ==>
              Grounded(s, plans[i].targets[0]) && Descends(s, staging, plans[i].targets[0])
  {
    hide PlanAll, PlanEdit, Inv, Sound, Descends, Grounded;
    PlanAllSound(env, s, root, staging, auth, edits);
    PlanAllOk(env, s, root, staging, auth, edits);
    var plans := PlanAll(env, s, root, staging, auth, edits).value;
    forall i | 0 <= i < |plans| && plans[i].newParent.Some?
      ensures Grounded(s, plans[i].targets[0]) && Descends(s, staging, plans[i].targets[0])
    {
      PlannedMoveIsStaged(env, s, root, staging, auth, edits[i]);
    }
  }

  lemma PlannedMoveIsStaged(env: Engine, s: Snap, root: Node, staging: Node, auth: Option<Checker>, e: SetEdit)
    requires Inv(s, root) && PlanEdit(env, s, root, staging, auth, e).Ok?
    requires PlanEdit(env, s, root, staging, auth, e).value.newParent.Some?
    ensures var p := PlanEdit(env, s, root, staging, auth, e).value;
            |p.targets| == 1 && Grounded(s, p.targets[0]) && Descends(s, staging, p.targets[0])
  {
    hide Evaluate, Inv, May, Subtree, ResolveOne, Parse, Descends, Grounded, PlanFirst, PlanNext;
  }

  /** Success or conflict, a node's parent is as before unless the node was moved. */
  lemma UnmovedKeepsParent(s: Snap, plans: seq<Plan>, n: Node)
    requires PlansOk(s.Keys, plans) && n in s && On(AllMoves(s.Keys, plans), n) == []
    ensures Apply(s, plans).Done? ==> n in Apply(s, plans).a.s && Apply(s, plans).a.s[n].parent == s[n].parent
    ensures Apply(s, plans).Conflict? ==>
              n in Rollback(Apply(s, plans).a) && Rollback(Apply(s, plans).a)[n].parent == s[n].parent
  {
    hide Apply, Tracks, Rollback, AllMoves, AllWrites, On, Olds, Replay, FailsAt;
    if Apply(s, plans).Done? {
      SuccessWritesLast(s, plans, n);
    } else {
      ApplyTracks(s, plans);
      var k := FailsAt(s, plans);
      var a, w, m := Apply(s, plans).a, AllWrites(plans[..k + 1]), AllMoves(s.Keys, plans[..k]);
      RollbackParts(s, a, w, m);
      FewerMoves(s, plans, k, n);
      ParentReplayed(s, a, w, m, n);
    }
  }

  lemma ParentReplayed(s: Snap, a: Applying, w: seq<(Node, NodeValue)>, m: seq<(Node, Node?)>, n: Node)
    requires Tracks(s, a, w, m) && n in s && On(m, n) == []
    ensures n in Replay(Parents(a.s), Olds(Parents(s), m)) && Replay(Parents(a.s), Olds(Parents(s), m))[n] == s[n].parent
  {
    hide Olds, Replay, On, After;
    ReplayAll(Parents(a.s), Parents(s), m);
  }

  lemma {:induction false} FewerMoves(s: Snap, plans: seq<Plan>, k: nat, n: Node)
    requires PlansOk(s.Keys, plans) && k <= |plans| && On(AllMoves(s.Keys, plans), n) == []
    ensures On(AllMoves(s.Keys, plans[..k]), n) == []
    decreases |plans|
  {
    if k < |plans| {
      var l := |plans| - 1;
      OnConcat(AllMoves(s.Keys, plans[..l]), MoveWrites(plans[l]), n);
      FewerMoves(s, plans[..l], k, n);
      assert plans[..l][..k] == plans[..k];
    } else {
      assert plans[..k] == plans;
    }
  }

  /** Whatever a Set does, nodes outside the staging node keep their parent chains. */
  lemma SetKeepsApart(env: Engine, s: Snap, root: Node, staging: Node, auth: Option<Checker>, edits: seq<SetEdit>,
                      n: Node)
    requires Inv(s, root) && Apart(s, staging, n)
    ensures Apart(SetAs(env, s, root, staging, auth, edits).0, staging, n)
  {
    hide PlanAll, Inv, Apply, Rollback, AllMoves, On, Descends, Grounded, Apart;
    var s' := SetAs(env, s, root, staging, auth, edits).0;
    var plans := PlanAll(env, s, root, staging, auth, edits);
    if plans.Ok? {
      PlannedMovesAreStaged(env, s, root, staging, auth, edits);
      forall m | m in s && Grounded(s, m) && !Descends(s, staging, m)
        ensures m in s' && s'[m].parent == s[m].parent
      {
        if On(AllMoves(s.Keys, plans.value), m) != [] {
          MovedIsStaged(s, staging, plans.value, m);
        }
        UnmovedKeepsParent(s, plans.value, m);
      }
      ChainStays(s, s', staging, n);
    }
  }
}
