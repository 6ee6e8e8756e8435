/**
 * The operations that add nodes, as the code runs them on the heap, proved against
 * the specifications of TreeGrow.
 */
module TreeGrowMethods {
  import opened Basics
  import opened WireTypes
  import opened Expression
  import opened Authz
  import opened TreeState
  import opened TreeRead
  import opened TreeSet
  import opened TreePlan
  import opened TreeGrow
  import opened TreeHeap
  import opened TreePlanMethods

  ghost function StateOf(t: Tree): State
    reads t, t.nodes
  {
    State(t.Snap(), t.lastID)
  }

  /** AppendUnder, as Create and the error and result nodes use it; it keeps a valid tree valid. */
  method AppendUnder(t: Tree, parent: Node, key: Bytes, value: NodeValue) returns (n: Node)
    requires parent in t.nodes
    modifies t, t.nodes
    ensures old(t.Valid()) ==> t.Valid()
    ensures fresh(n) && n.key == key && t.nodes == old(t.nodes) + {n}
    ensures StateOf(t) == TreeGrow.AppendUnder(old(StateOf(t)), parent, n, value)
  {
    hide Tree.Snap, Appended, Inv, IdsOk, ReachSet;
    ghost var st := StateOf(t);
    n := new Node(key, value);
    t.AppendChild(parent, n);
    if Sane(st, t.root) {
      AppendUnderGrows(st, t.root, parent, n, value);
    }
  }

  // --- a path of containers ------------------------------------------------------------------

  method FindChild(cur: Node, key: Bytes) returns (found: Node?)
    ensures found == FirstWithKey(cur.children, key)
  {
    var i := 0;
    while i < |cur.children|
      invariant 0 <= i <= |cur.children|
      invariant FirstWithKey(cur.children, key) == FirstWithKey(cur.children[i..], key)
    {
      assert cur.children[i..][1..] == cur.children[i + 1..];
      if cur.children[i].key == key {
        return cur.children[i];
      }
      i := i + 1;
    }
    return null;
  }

  /** One more key: the node it leads to, found or made. */
  lemma {:induction false} EnsureSnoc(st: State, root: Node, start: Node, keys: seq<Bytes>, made: seq<Node>,
                                      key: Bytes, n: Node)
    requires Sane(st, root) && start in st.s && Supplies(st, start, keys, made)
    requires n !in EnsurePath(st, start, keys, made).0.s && n.key == key
    ensures var (t, cur) := EnsurePath(st, start, keys, made);
            && cur in t.s
            && var found := FirstWithKey(t.s[cur].children, key);
               if found != null then
                 EnsurePath(st, start, keys + [key], made) == (t, found) && Supplies(st, start, keys + [key], made)
               else
                 && EnsurePath(st, start, keys + [key], made + [n]) == (TreeGrow.AppendUnder(t, cur, n, NoValue), n)
                 && Supplies(st, start, keys + [key], made + [n])
    decreases |keys|
  {
    hide Inv, IdsOk, TreeGrow.AppendUnder, Grows, ReachSet;
    if keys == [] {
      assert [key][1..] == [] && [n][1..] == [];
    } else {
      assert (keys + [key])[1..] == keys[1..] + [key];
      var found := FirstWithKey(st.s[start].children, keys[0]);
      FirstWithKeySpec(st.s[start].children, keys[0]);
      if found != null {
        OwnedBy(st.s, root, start, found);
        EnsureSnoc(st, root, found, keys[1..], made, key, n);
      } else {
        var next := TreeGrow.AppendUnder(st, start, made[0], NoValue);
        AppendUnderGrows(st, root, start, made[0], NoValue);
        GrownSane(st, next, root, {made[0]});
        assert (made + [n])[1..] == made[1..] + [n];
        EnsureSnoc(next, root, made[0], keys[1..], made[1..], key, n);
      }
    }
  }

  /** ensurePathLocked, with the nodes it made in order. */
  method EnsurePathFrom(t: Tree, start: Node, keys: seq<Bytes>) returns (cur: Node, ghost made: seq<Node>)
    requires t.Valid() && start in t.nodes
    modifies t, t.nodes
    ensures t.Valid() && cur in t.nodes && t.nodes == old(t.nodes) + Members(made)
    ensures forall i :: 0 <= i < |made| ==> fresh(made[i])
    ensures Supplies(old(StateOf(t)), start, keys, made)
    ensures (StateOf(t), cur) == EnsurePath(old(StateOf(t)), start, keys, made)
  {
    hide Tree.Snap, Tree.Valid, Inv, IdsOk, ReachSet, Grows, TreeGrow.AppendUnder, EnsurePath, Supplies;
    t.Sound();
    ghost var st := StateOf(t);
    cur, made := start, [];
    EnsureNothing(st, start);
    assert Members(made) == {};
    var i := 0;
    while i < |keys|
      invariant 0 <= i <= |keys| && t.Valid() && cur in t.nodes
      invariant t.nodes == old(t.nodes) + Members(made) && forall k :: 0 <= k < |made| ==> fresh(made[k])
      invariant Supplies(st, start, keys[..i], made) && (StateOf(t), cur) == EnsurePath(st, start, keys[..i], made)
    {
      assert keys[..i + 1] == keys[..i] + [keys[i]];
      ghost var before := StateOf(t);
      t.Fields(cur);
      var found := FindChild(cur, keys[i]);
      FirstWithKeySpec(cur.children, keys[i]);
      if found == null {
        var n := AppendUnder(t, cur, keys[i], NoValue);
        EnsureSnoc(st, t.root, start, keys[..i], made, keys[i], n);
        assert Members(made + [n]) == Members(made) + {n};
        found, made := n, made + [n];
      } else {
        t.Sound();
        OwnedBy(before.s, t.root, cur, found);
        EnsureFound(st, t.root, start, keys[..i], made, keys[i], found);
      }
      cur := found;
      i := i + 1;
    }
    assert keys[..|keys|] == keys;
  }

  lemma EnsureNothing(st: State, start: Node)
    ensures EnsurePath(st, start, [], []) == (st, start) && Supplies(st, start, [], [])
  {
  }

  lemma {:induction false} EnsureFound(st: State, root: Node, start: Node, keys: seq<Bytes>, made: seq<Node>,
                                       key: Bytes, found: Node)
    requires Sane(st, root) && start in st.s && Supplies(st, start, keys, made)
    requires var (t, cur) := EnsurePath(st, start, keys, made); cur in t.s && FirstWithKey(t.s[cur].children, key) == found
    ensures EnsurePath(st, start, keys + [key], made) == (EnsurePath(st, start, keys, made).0, found)
    ensures Supplies(st, start, keys + [key], made)
    decreases |keys|
  {
    hide Inv, IdsOk, TreeGrow.AppendUnder, Grows, ReachSet;
    if keys == [] {
      assert [key][1..] == [];
    } else {
      assert (keys + [key])[1..] == keys[1..] + [key];
      var next := FirstWithKey(st.s[start].children, keys[0]);
      FirstWithKeySpec(st.s[start].children, keys[0]);
      if next != null {
        OwnedBy(st.s, root, start, next);
        EnsureFound(st, root, next, keys[1..], made, key, found);
      } else {
        AppendUnderGrows(st, root, start, made[0], NoValue);
        GrownSane(st, TreeGrow.AppendUnder(st, start, made[0], NoValue), root, {made[0]});
        EnsureFound(TreeGrow.AppendUnder(st, start, made[0], NoValue), root, made[0], keys[1..], made[1..], key, found);
      }
    }
  }

  // --- staged nodes ---------------------------------------------------------------------------------

  method CreateStagedAs(t: Tree, env: Engine, staging: Node, parentExpr: Bytes, key: Bytes, value: NodeValue,
                        auth: Option<Checker>)
    returns (r: Result<Node, SetError>)
    requires t.Valid() && staging in t.nodes
    modifies t, t.nodes
    ensures t.Valid() && old(t.nodes) <= t.nodes && fresh(t.nodes - old(t.nodes))
    ensures r.Ok? ==> fresh(r.value) && r.value.key == key
    ensures match CreateParent(env, old(t.Snap()), t.root, auth, staging, parentExpr)
            case Err(e) => r == Err(e) && StateOf(t) == old(StateOf(t))
            case Ok(parent) => r.Ok? && parent in old(t.nodes) && StateOf(t) == TreeGrow.AppendUnder(old(StateOf(t)), parent, r.value, value)
  {
    hide Tree.Snap, Tree.Valid, Inv, IdsOk, ResolveOne, Descends, TreeGrow.AppendUnder;
    t.Sound();
    var parent := staging;
    if parentExpr != [] {
      var n := ResolveExactlyOne(t, env, parentExpr, auth);
      if n.Err? {
        return Err(n.error);
      }
      var staged := t.IsDescendant(staging, n.value);
      if !(staging == n.value || staged) {
        return Err(NotStaged);
      }
      parent := n.value;
    }
    var n := AppendUnder(t, parent, key, value);
    return Ok(n);
  }
}
