/**
 * The operations that add nodes, after goimpl/internal/tree/tree.go:648-731 and
 * 593-604: appending under a node, walking and creating a path of containers,
 * creating a staged node, and appending a whole leaf subtree.
 */
module TreeGrow {
  import opened Basics
  import opened WireTypes
  import opened Expression
  import opened Authz
  import opened Flatten
  import opened TreeState
  import opened TreeRead
  import opened TreeSet
  import opened TreePlan

  /** The tree and the id given out last. */
  datatype State = State(s: Snap, last: nat)

  ghost predicate Sane(st: State, root: Node) {
    Inv(st.s, root) && IdsOk(st.s, root, st.last)
  }

  /** t is what an operation may leave of st when it makes the nodes of made. */
  ghost predicate Grows(st: State, t: State, root: Node, made: set<Node>) {
    && Sane(t, root) && st.last <= t.last
    && t.s.Keys == st.s.Keys + made
    && (forall n :: n in st.s ==> t.s[n].id == st.s[n].id)
    && ReachSet(t.s, root) <= ReachSet(st.s, root) + made
  }

  lemma GrowsNothing(st: State, root: Node)
    requires Sane(st, root)
    ensures Grows(st, st, root, {})
  {
  }

  lemma GrowsTransitive(a: State, b: State, c: State, root: Node, f: set<Node>, g: set<Node>)
    requires Grows(a, b, root, f) && Grows(b, c, root, g)
    ensures Grows(a, c, root, f + g)
  {
    hide Sane, ReachSet;
  }

  // --- one node ---------------------------------------------------------------------------

  function AppendUnder(st: State, parent: Node, n: Node, value: NodeValue): State
    requires parent in st.s
  {
    State(Appended(st.s, parent, n, value, st.last + 1), st.last + 1)
  }

  /** The new node, and only it, is added: at the end of its parent's list, with an id of its own. */
  lemma AppendUnderGrows(st: State, root: Node, parent: Node, n: Node, value: NodeValue)
    requires Sane(st, root) && parent in st.s && n !in st.s
    ensures Grows(st, AppendUnder(st, parent, n, value), root, {n})
  {
    hide Appended, Inv, IdsOk, ReachSet;
    AppendedKeepsInv(st.s, root, parent, n, value, st.last);
    AppendedFields(st.s, parent, n, value, st.last + 1);
  }

  // --- a path of containers ------------------------------------------------------------------

  function FirstWithKey(ns: seq<Node>, key: Bytes): Node? {
    if ns == [] then null else if ns[0].key == key then ns[0] else FirstWithKey(ns[1..], key)
  }

  lemma {:induction false} FirstWithKeySpec(ns: seq<Node>, key: Bytes)
    ensures var n := FirstWithKey(ns, key);
            if n == null then forall m :: m in ns ==> m.key != key else n in ns && n.key == key
  {
    if ns != [] && ns[0].key != key {
      FirstWithKeySpec(ns[1..], key);
    }
  }

  /** ensurePathLocked: the tree and the node at the end of the path; made supplies the nodes it makes. */
  function EnsurePath(st: State, start: Node, keys: seq<Bytes>, made: seq<Node>): (State, Node)
    decreases |keys|
  {
    if keys == [] || start !in st.s then (st, start)
    else
      var found := FirstWithKey(st.s[start].children, keys[0]);
      if found != null then EnsurePath(st, found, keys[1..], made)
      else if made == [] then (st, start)
      else EnsurePath(AppendUnder(st, start, made[0], NoValue), made[0], keys[1..], made[1..])
  }

  /** The nodes of a path whose keys are not there yet: made has one node, of the right key, for each. */
  ghost predicate Supplies(st: State, start: Node, keys: seq<Bytes>, made: seq<Node>)
    decreases |keys|
  {
    if keys == [] || start !in st.s then made == []
    else
      var found := FirstWithKey(st.s[start].children, keys[0]);
      if found != null then Supplies(st, found, keys[1..], made)
      else
        && made != [] && made[0] !in st.s && made[0].key == keys[0]
        && Supplies(AppendUnder(st, start, made[0], NoValue), made[0], keys[1..], made[1..])
  }

  /** Only the missing part of the path is added. */
  lemma {:induction false} EnsurePathGrows(st: State, root: Node, start: Node, keys: seq<Bytes>, made: seq<Node>)
    requires Sane(st, root) && start in st.s && Supplies(st, start, keys, made)
    ensures Grows(st, EnsurePath(st, start, keys, made).0, root, Members(made))
    ensures EnsurePath(st, start, keys, made).1 in EnsurePath(st, start, keys, made).0.s
    decreases |keys|
  {
    hide Inv, IdsOk, Grows, AppendUnder, ReachSet;
    if keys == [] {
      GrowsNothing(st, root);
      assert Members(made) == {};
    } else {
      var found := FirstWithKey(st.s[start].children, keys[0]);
      FirstWithKeySpec(st.s[start].children, keys[0]);
      if found != null {
        OwnedBy(st.s, root, start, found);
        EnsurePathGrows(st, root, found, keys[1..], made);
      } else {
        EnsureNext(st, root, start, keys, made);
      }
    }
  }

  lemma {:induction false} EnsureNext(st: State, root: Node, start: Node, keys: seq<Bytes>, made: seq<Node>)
    requires Sane(st, root) && start in st.s && keys != [] && Supplies(st, start, keys, made)
    requires FirstWithKey(st.s[start].children, keys[0]) == null
    ensures Grows(st, EnsurePath(st, start, keys, made).0, root, Members(made))
    ensures EnsurePath(st, start, keys, made).1 in EnsurePath(st, start, keys, made).0.s
    decreases |keys|, 0
  {
    hide Inv, IdsOk, ReachSet, AppendUnder, Grows, FirstWithKey;
    var next := AppendUnder(st, start, made[0], NoValue);
    AppendUnderGrows(st, root, start, made[0], NoValue);
    GrownSane(st, next, root, {made[0]});
    EnsurePathGrows(next, root, made[0], keys[1..], made[1..]);
    GrowsTransitive(st, next, EnsurePath(next, made[0], keys[1..], made[1..]).0, root, {made[0]}, Members(made[1..]));
    assert Members(made) == {made[0]} + Members(made[1..]);
  }

  lemma GrownSane(st: State, t: State, root: Node, made: set<Node>)
    requires Grows(st, t, root, made)
    ensures Sane(t, root) && t.s.Keys == st.s.Keys + made
  {
  }

  /** The keys of n's ancestors below start, and its own, are keys. */
  ghost predicate IsPath(s: Snap, start: Node, keys: seq<Bytes>, n: Node) {
    if keys == [] then n == start
    else
      && start in s
      && FirstWithKey(s[start].children, keys[0]) != null
      && IsPath(s, FirstWithKey(s[start].children, keys[0]), keys[1..], n)
  }

  lemma {:induction false} FirstWithKeyAppended(ns: seq<Node>, n: Node, key: Bytes)
    ensures FirstWithKey(ns + [n], key)
         == if FirstWithKey(ns, key) != null then FirstWithKey(ns, key) else if n.key == key then n else null
  {
    if ns != [] {
      assert (ns + [n])[1..] == ns[1..] + [n];
      FirstWithKeyAppended(ns[1..], n, key);
    }
  }

  /** Whatever else is appended, a path that is there stays there. */
  lemma {:induction false} PathSurvives(st: State, start: Node, keys: seq<Bytes>, n: Node, parent: Node, m: Node,
                                        value: NodeValue)
    requires IsPath(st.s, start, keys, n) && parent in st.s && m !in st.s
    ensures IsPath(AppendUnder(st, parent, m, value).s, start, keys, n)
    decreases |keys|
  {
    hide Appended;
    if keys != [] {
      AppendedFields(st.s, parent, m, value, st.last + 1);
      FirstWithKeyAppended(st.s[parent].children, m, keys[0]);
      PathSurvives(st, FirstWithKey(st.s[start].children, keys[0]), keys[1..], n, parent, m, value);
    }
  }

  /** A path inside what came before survives a whole EnsurePath elsewhere in it. */
  lemma {:induction false} PathSurvivesEnsure(st: State, root: Node, at: Node, keys: seq<Bytes>, made: seq<Node>,
                                              start: Node, path: seq<Bytes>, n: Node)
    requires Sane(st, root) && at in st.s && Supplies(st, at, keys, made) && IsPath(st.s, start, path, n)
    ensures IsPath(EnsurePath(st, at, keys, made).0.s, start, path, n)
    decreases |keys|
  {
    hide Inv, IdsOk, AppendUnder, ReachSet, IsPath, Grows;
    if keys != [] {
      var found := FirstWithKey(st.s[at].children, keys[0]);
      FirstWithKeySpec(st.s[at].children, keys[0]);
      if found != null {
        OwnedBy(st.s, root, at, found);
        PathSurvivesEnsure(st, root, found, keys[1..], made, start, path, n);
      } else {
        PathSurvives(st, start, path, n, at, made[0], NoValue);
        AppendUnderGrows(st, root, at, made[0], NoValue);
        GrownSane(st, AppendUnder(st, at, made[0], NoValue), root, {made[0]});
        PathSurvivesEnsure(AppendUnder(st, at, made[0], NoValue), root, made[0], keys[1..], made[1..], start, path, n);
      }
    }
  }

  /** The node that EnsurePath returns is the one its keys lead to. */
  lemma {:induction false} EnsurePathLeadsThere(st: State, root: Node, start: Node, keys: seq<Bytes>, made: seq<Node>)
    requires Sane(st, root) && start in st.s && Supplies(st, start, keys, made)
    ensures var (t, n) := EnsurePath(st, start, keys, made); IsPath(t.s, start, keys, n)
    decreases |keys|
  {
    hide Inv, IdsOk, AppendUnder, ReachSet, Grows;
    if keys != [] {
      var found := FirstWithKey(st.s[start].children, keys[0]);
      FirstWithKeySpec(st.s[start].children, keys[0]);
      var one := keys[..1];
      if found != null {
        OwnedBy(st.s, root, start, found);
        EnsurePathLeadsThere(st, root, found, keys[1..], made);
        StepPath(st.s, start, keys[0], found);
        PathSurvivesEnsure(st, root, found, keys[1..], made, start, [keys[0]], found);
      } else {
        var next, n := AppendUnder(st, start, made[0], NoValue), made[0];
        AppendUnderGrows(st, root, start, n, NoValue);
        GrownSane(st, next, root, {n});
        EnsurePathLeadsThere(next, root, n, keys[1..], made[1..]);
        AppendedIsFirst(st, start, n, keys[0]);
        StepPath(next.s, start, keys[0], n);
        PathSurvivesEnsure(next, root, n, keys[1..], made[1..], start, [keys[0]], n);
      }
    }
  }

  lemma StepPath(s: Snap, start: Node, key: Bytes, n: Node)
    requires start in s && FirstWithKey(s[start].children, key) == n
    ensures IsPath(s, start, [key], n)
  {
    assert [key][1..] == [];
  }

  lemma AppendedIsFirst(st: State, start: Node, n: Node, key: Bytes)
    requires start in st.s && n !in st.s && n.key == key && FirstWithKey(st.s[start].children, key) == null
    ensures var t := AppendUnder(st, start, n, NoValue); start in t.s && FirstWithKey(t.s[start].children, key) == n
  {
    hide Appended, FirstWithKey;
    AppendedFields(st.s, start, n, NoValue, st.last + 1);
    FirstWithKeyAppended(st.s[start].children, n, key);
  }

  /** Ensuring a path that is there finds the same node and adds nothing. */
  lemma {:induction false} EnsurePathFinds(st: State, start: Node, keys: seq<Bytes>, n: Node)
    requires IsPath(st.s, start, keys, n)
    ensures EnsurePath(st, start, keys, []) == (st, n) && Supplies(st, start, keys, [])
    decreases |keys|
  {
    if keys != [] {
      EnsurePathFinds(st, FirstWithKey(st.s[start].children, keys[0]), keys[1..], n);
    }
  }

  /** So ensuring the same path again returns the same node and changes nothing. */
  lemma EnsurePathIsIdempotent(st: State, root: Node, start: Node, keys: seq<Bytes>, made: seq<Node>)
    requires Sane(st, root) && start in st.s && Supplies(st, start, keys, made)
    ensures var (t, n) := EnsurePath(st, start, keys, made);
            EnsurePath(t, start, keys, []) == (t, n) && Supplies(t, start, keys, [])
  {
    hide EnsurePath, Supplies, IsPath, Sane;
    var (t, n) := EnsurePath(st, start, keys, made);
    EnsurePathLeadsThere(st, root, start, keys, made);
    EnsurePathFinds(t, start, keys, n);
  }

  // --- staged nodes ------------------------------------------------------------------------------

  /** Where a Create would put its node: the staging node itself, or one node below it that the caller can see. */
  ghost function CreateParent(env: Engine, s: Snap, root: Node, auth: Option<Checker>, staging: Node,
                              parentExpr: Bytes): Result<Node, SetError> {
    if parentExpr == [] then Ok(staging)
    else
      var n :- ResolveOne(env, s, root, auth, parentExpr);
      if n == staging || (Grounded(s, n) && Descends(s, staging, n)) then Ok(n) else Err(NotStaged)
  }

  ghost function CreateStaged(env: Engine, st: State, root: Node, auth: Option<Checker>, staging: Node,
                              parentExpr: Bytes, n: Node, value: NodeValue): (State, Result<Node, SetError>)
  {
    var parent := CreateParent(env, st.s, root, auth, staging, parentExpr);
    if parent.Err? then (st, Err(parent.error))
    else if parent.value !in st.s then (st, Err(NotStaged))
    else (AppendUnder(st, parent.value, n, value), Ok(n))
  }

  /** The parent is in the tree, so a Create fails only where finding it does. */
  lemma CreateParentInside(env: Engine, s: Snap, root: Node, auth: Option<Checker>, staging: Node, parentExpr: Bytes)
    requires Inv(s, root) && staging in s
    ensures var p := CreateParent(env, s, root, auth, staging, parentExpr);
            p.Ok? ==> p.value in s && (p.value == staging || (Grounded(s, p.value) && Descends(s, staging, p.value)))
  {
    hide ResolveOne, Inv;
    if parentExpr != [] && ResolveOne(env, s, root, auth, parentExpr).Ok? {
      ResolvedIsReachable(env, s, root, auth, parentExpr);
    }
  }

  /** A created node lies below the session's own staging node, wherever its parent expression led; on error nothing changes. */
  lemma CreateStaysStaged(env: Engine, st: State, root: Node, auth: Option<Checker>, staging: Node,
                          parentExpr: Bytes, n: Node, value: NodeValue)
    requires Sane(st, root) && staging in st.s && n !in st.s
    ensures var (t, r) := CreateStaged(env, st, root, auth, staging, parentExpr, n, value);
            && (r.Err? ==> t == st)
            && (r.Ok? ==> Grows(st, t, root, {n}) && Grounded(t.s, n) && Descends(t.s, staging, n))
  {
    hide CreateParent, Inv, IdsOk, AppendUnder, Grows;
    CreateParentInside(env, st.s, root, auth, staging, parentExpr);
    var p := CreateParent(env, st.s, root, auth, staging, parentExpr);
    if p.Ok? {
      AppendUnderGrows(st, root, p.value, n, value);
      StagedChild(st, AppendUnder(st, p.value, n, value), root, staging, p.value, n, value);
    }
  }

  lemma StagedChild(st: State, t: State, root: Node, staging: Node, parent: Node, n: Node, value: NodeValue)
    requires Sane(st, root) && parent in st.s && n !in st.s && t == AppendUnder(st, parent, n, value) && Grows(st, t, root, {n})
    requires parent == staging || (Grounded(st.s, parent) && Descends(st.s, staging, parent))
    ensures Grounded(t.s, n) && Descends(t.s, staging, n)
  {
    hide Appended, IdsOk, ReachSet, Closed, Owned, Distinct;
    AppendedFields(st.s, parent, n, value, st.last + 1);
    HeightStep(t.s, n);
    if parent != staging {
      DescendsGrows(st.s, t.s, staging, parent);
    }
  }

  lemma {:induction false} DescendsGrows(s: Snap, s': Snap, root: Node, n: Node)
    requires SameParents(s, s') && Grounded(s, n) && Descends(s, root, n)
    ensures Grounded(s', n) && Descends(s', root, n)
    decreases Height(s, n)
  {
    KeyPathSame(s, s', n);
    HeightStep(s, n);
    HeightStep(s', n);
    if s[n].parent != root {
      DescendsGrows(s, s', root, s[n].parent);
    }
  }

  // --- a leaf subtree -----------------------------------------------------------------------------

  /** top, without a value, under parent, and then each leaf under top. */
  function AppendLeaves(st: State, top: Node, leaves: seq<Node>, values: seq<NodeValue>): State
    requires |values| == |leaves| && top in st.s
    ensures top in AppendLeaves(st, top, leaves, values).s
  {
    if leaves == [] then st
    else
      var k := |leaves| - 1;
      AppendUnder(AppendLeaves(st, top, leaves[..k], values[..k]), top, leaves[k], values[k])
  }

  lemma {:induction false} AppendLeavesGrows(st: State, root: Node, top: Node, leaves: seq<Node>, values: seq<NodeValue>)
    requires Sane(st, root) && top in st.s && |values| == |leaves|
    requires NoDup(leaves) && forall n :: n in leaves ==> n !in st.s
    ensures Grows(st, AppendLeaves(st, top, leaves, values), root, Members(leaves))
  {
    hide Inv, IdsOk, Grows, AppendUnder, ReachSet;
    if leaves == [] {
      GrowsNothing(st, root);
      assert Members(leaves) == {};
    } else {
      var k := |leaves| - 1;
      var before := AppendLeaves(st, top, leaves[..k], values[..k]);
      AppendLeavesGrows(st, root, top, leaves[..k], values[..k]);
      LastApart(leaves);
      hide NoDup, AppendLeaves;
      GrownSane(st, before, root, Members(leaves[..k]));
      assert leaves[k] in leaves && leaves[k] !in before.s;
      AppendUnderGrows(before, root, top, leaves[k], values[k]);
      GrowsTransitive(st, before, AppendUnder(before, top, leaves[k], values[k]), root, Members(leaves[..k]), {leaves[k]});
      assert Members(leaves) == Members(leaves[..k]) + {leaves[k]};
    }
  }

  /** t is s with leaves under top. */
  ghost predicate HasLeaves(s: Snap, t: Snap, top: Node, leaves: seq<Node>, values: seq<NodeValue>)
    requires |values| == |leaves| && top in s
  {
    && t.Keys == s.Keys + Members(leaves)
    && t[top].children == s[top].children + leaves && t[top].value == s[top].value
    && forall i :: 0 <= i < |leaves| ==> leaves[i] in t && t[leaves[i]].value == values[i] && t[leaves[i]].children == []
  }

  lemma {:induction false} LeavesFields(st: State, root: Node, top: Node, leaves: seq<Node>, values: seq<NodeValue>)
    requires top in st.s && |values| == |leaves|
    requires NoDup(leaves) && forall n :: n in leaves ==> n !in st.s
    ensures HasLeaves(st.s, AppendLeaves(st, top, leaves, values).s, top, leaves, values)
  {
    hide HasLeaves, Appended;
    if leaves == [] {
      NoLeaves(st.s, top);
    } else {
      var k := |leaves| - 1;
      LastApart(leaves);
      LeavesFields(st, root, top, leaves[..k], values[..k]);
      hide NoDup;
      var before := AppendLeaves(st, top, leaves[..k], values[..k]);
      assert leaves[k] in leaves;
      OneMoreLeaf(st.s, before.s, top, leaves[..k], values[..k], leaves[k], values[k], before.last + 1);
      assert leaves == leaves[..k] + [leaves[k]] && values == values[..k] + [values[k]];
    }
  }

  lemma NoLeaves(s: Snap, top: Node)
    requires top in s
    ensures HasLeaves(s, s, top, [], [])
  {
    assert Members([]) == {} && s[top].children + [] == s[top].children;
  }

  lemma OneMoreLeaf(s: Snap, t: Snap, top: Node, leaves: seq<Node>, values: seq<NodeValue>, leaf: Node,
                    value: NodeValue, id: nat)
    requires top in s && |values| == |leaves| && HasLeaves(s, t, top, leaves, values) && leaf !in s && leaf !in leaves
    requires top !in leaves
    ensures HasLeaves(s, Appended(t, top, leaf, value, id), top, leaves + [leaf], values + [value])
  {
    hide Appended;
    AppendedFields(t, top, leaf, value, id);
    assert Members(leaves + [leaf]) == Members(leaves) + {leaf};
    assert (s[top].children + leaves) + [leaf] == s[top].children + (leaves + [leaf]);
  }

  function LeafRoses(leaves: seq<Node>, values: seq<NodeValue>): seq<Rose>
    requires |values| == |leaves|
  {
    if leaves == [] then []
    else
      var k := |leaves| - 1;
      LeafRoses(leaves[..k], values[..k]) + [Rose(leaves[k].key, values[k], [])]
  }

  lemma {:induction false} LeafViews(s: Snap, root: Node, auth: Option<Checker>, top: Node, leaves: seq<Node>,
                                     values: seq<NodeValue>)
    requires Inv(s, root) && top in s && |values| == |leaves|
    requires forall c :: c in leaves ==> c in s[top].children
    requires forall c :: c in leaves ==> Grounded(s, c) && May(s, auth, OpRead, c)
    requires forall i :: 0 <= i < |leaves| ==> leaves[i] in s && s[leaves[i]].value == values[i] && s[leaves[i]].children == []
    ensures Views(s, root, auth, top, leaves) == LeafRoses(leaves, values)
  {
    hide Inv, Subtree, May;
    if leaves != [] {
      var k := |leaves| - 1;
      LeafViews(s, root, auth, top, leaves[..k], values[..k]);
      assert leaves[k] in leaves;
      OwnedBy(s, root, top, leaves[k]);
      SubtreeShrinks(s, root, top, leaves[k]);
      LeafView(s, root, auth, leaves[k]);
    }
  }

  lemma LeafView(s: Snap, root: Node, auth: Option<Checker>, n: Node)
    requires Inv(s, root) && n in s && s[n].children == []
    ensures View(s, root, auth, n) == Rose(n.key, s[n].value, [])
  {
    hide Inv;
  }

  /** A whole error or result subtree: top without a value, one leaf for each entry. */
  function AppendLeafSubtree(st: State, parent: Node, top: Node, leaves: seq<Node>, values: seq<NodeValue>): State
    requires |values| == |leaves| && parent in st.s
  {
    AppendLeaves(AppendUnder(st, parent, top, NoValue), top, leaves, values)
  }

  /** It adds its nodes and nothing else, and what it hands back reads as exactly the entries it was given. */
  lemma LeafSubtreeGrows(st: State, root: Node, parent: Node, top: Node, leaves: seq<Node>, values: seq<NodeValue>)
    requires Sane(st, root) && parent in st.s && |values| == |leaves|
    requires top !in st.s && NoDup([top] + leaves) && forall n :: n in leaves ==> n !in st.s
    ensures var t := AppendLeafSubtree(st, parent, top, leaves, values);
            && Grows(st, t, root, {top} + Members(leaves)) && top in t.s
            && View(t.s, root, None, top) == Rose(top.key, NoValue, LeafRoses(leaves, values))
  {
    hide Grows, AppendUnder, Inv, IdsOk, NoDup, AppendLeaves, View, ReachSet;
    var one := AppendUnder(st, parent, top, NoValue);
    AppendUnderGrows(st, root, parent, top, NoValue);
    GrownSane(st, one, root, {top});
    NoDupCons(top, leaves);
    AppendLeavesGrows(one, root, top, leaves, values);
    var t := AppendLeaves(one, top, leaves, values);
    GrowsTransitive(st, one, t, root, {top}, Members(leaves));
    GrownSane(st, t, root, {top} + Members(leaves));
    LeavesFields(one, root, top, leaves, values);
    TopFields(st, parent, top);
    assert [] + leaves == leaves;
    AllGrounded(t.s, root);
    LeafViews(t.s, root, None, top, leaves, values);
    ViewOf(t.s, root, None, top);
  }

  lemma TopFields(st: State, parent: Node, top: Node)
    requires parent in st.s && top !in st.s
    ensures var one := AppendUnder(st, parent, top, NoValue); top in one.s && one.s[top].children == [] && one.s[top].value == NoValue
  {
  }

  lemma AllGrounded(s: Snap, root: Node)
    requires Inv(s, root)
    ensures forall n :: n in s ==> Grounded(s, n)
  {
  }

  lemma ViewOf(s: Snap, root: Node, auth: Option<Checker>, n: Node)
    requires Inv(s, root) && n in s
    ensures View(s, root, auth, n) == Rose(n.key, s[n].value, Views(s, root, auth, n, s[n].children))
  {
    hide Inv, Subtree;
  }
}
