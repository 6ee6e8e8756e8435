/**
 * The tree object of goimpl/internal/tree/tree.go: its nodes are changed in place,
 * and each operation is proved to leave the heap as its specification says.
 */
module TreeHeap {
  import opened Basics
  import opened WireTypes
  import opened Expression
  import opened Authz
  import opened TreeState
  import opened TreeRead
  import opened TreeSet
  import opened TreeSetSafety
  import opened TreePlan
  import opened TreeSetTheorems
  import opened TreeGrow

  class Tree {
    const root: Node
    var lastID: nat
    ghost var nodes: set<Node>

    /** What the heap holds, as one value. */
    ghost function Snap(): (s: Snap)
      reads this, nodes
      ensures s.Keys == nodes
    {
      map n | n in nodes :: Rec(n.value, n.parent, n.children, n.id)
    }

    lemma Fields(n: Node)
      requires n in nodes
      ensures ValueOf(Snap(), n) == n.value && ParentOf(Snap(), n) == n.parent && KidsOf(Snap(), n) == n.children
    {
    }

    ghost predicate Valid()
      reads this, nodes
    {
      Inv(Snap(), root) && IdsOk(Snap(), root, lastID)
    }

    lemma Sound()
      requires Valid()
      ensures Inv(Snap(), root) && IdsOk(Snap(), root, lastID)
    {
    }

    lemma RootKnown()
      requires Valid()
      ensures root in nodes
    {
    }

    lemma ParentKnown(n: Node)
      requires Valid() && n in nodes
      ensures n.parent != null ==> n.parent in nodes
    {
      assert Snap()[n].parent == n.parent;
    }

    /** After a change that keeps the nodes, the ids and the invariant. */
    lemma StillSound(s: Snap)
      requires IdsOk(s, root, lastID) && s.Keys == nodes && Inv(Snap(), root)
      requires forall n :: n in s ==> Snap()[n].id == s[n].id
      ensures Valid()
    {
      hide Inv;
    }

    constructor ()
      ensures Valid() && fresh(nodes) && fresh(root) && root in nodes
      ensures Snap() == map[root := Rec(NoValue, null, [], 0)] && lastID == 0
    {
      var r := new Node([SLASH], NoValue);
      root, lastID, nodes := r, 0, {r};
      new;
      assert Climbs(Snap(), root, 0);
    }

    // --- one node ---------------------------------------------------------------------

    method AppendChild(parent: Node, child: Node)
      requires parent in nodes && child !in nodes && child.children == []
      modifies this, parent, child
      ensures nodes == old(nodes) + {child} && lastID == old(lastID) + 1
      ensures child.value == old(child.value)
      ensures Snap() == Appended(old(Snap()), parent, child, old(child.value), lastID)
    {
      ghost var s := Snap();
      lastID := lastID + 1;
      child.id := lastID;
      child.parent := parent;
      parent.children := parent.children + [child];
      nodes := nodes + {child};
      hide Appended;
      AppendedFields(s, parent, child, child.value, lastID);
    }

    method IndexOfChild(parent: Node, child: Node?) returns (index: int)
      ensures index == IndexOf(parent.children, child)
    {
      var i := 0;
      while i < |parent.children|
        invariant 0 <= i <= |parent.children|
        invariant IndexOf(parent.children, child)
               == if IndexOf(parent.children[i..], child) < 0 then -1 else i + IndexOf(parent.children[i..], child)
      {
        assert parent.children[i..][1..] == parent.children[i + 1..];
        if parent.children[i] == child {
          return i;
        }
        i := i + 1;
      }
      return -1;
    }

    method SetChildren(n: Node, children: seq<Node>)
      requires n in nodes
      modifies n`children
      ensures Snap() == WithChildren(old(Snap()), n, children)
    {
      n.children := children;
    }

    method SetValue(n: Node, value: NodeValue)
      requires n in nodes
      modifies n`value
      ensures Snap() == WithValue(old(Snap()), n, value)
    {
      n.value := value;
    }

    method SetParent(n: Node, parent: Node?)
      requires n in nodes
      modifies n`parent
      ensures Snap() == WithParent(old(Snap()), n, parent)
    {
      n.parent := parent;
    }

    method RemoveChild(parent: Node, child: Node)
      requires parent in nodes && child in parent.children
      modifies parent`children
      ensures Snap() == WithChildren(old(Snap()), parent, Remove(KidsOf(old(Snap()), parent), child))
    {
      var index := IndexOfChild(parent, child);
      RemoveAtIndex(parent.children, child);
      SetChildren(parent, parent.children[..index] + parent.children[index + 1..]);
    }

    method RelinkFirstChild(parent: Node, newFirst: Node?) returns (error: Option<SetError>)
      requires parent in nodes && (newFirst != null ==> newFirst in nodes)
      modifies parent`children
      ensures match RelinkFirst(old(Snap()), parent, newFirst)
              case Ok(s) => error == None && Snap() == s
              case Err(e) => error == Some(e) && Snap() == old(Snap())
    {
      if newFirst == null {
        SetChildren(parent, []);
        return None;
      }
      if newFirst.parent != parent {
        return Some(NotAChild);
      }
      var index := IndexOfChild(parent, newFirst);
      if index < 0 {
        return Some(Gone);
      }
      SetChildren(parent, parent.children[index..]);
      return None;
    }

    method RelinkNextSibling(node: Node, newNext: Node?) returns (error: Option<SetError>)
      requires node in nodes && (newNext != null ==> newNext in nodes) && (node.parent != null ==> node.parent in nodes)
      modifies nodes
      ensures match RelinkNext(old(Snap()), node, newNext)
              case Ok(s) => error == None && Snap() == s
              case Err(e) => error == Some(e) && Snap() == old(Snap())
    {
      var parent := node.parent;
      if parent == null {
        return Some(NoParent);
      }
      var index := IndexOfChild(parent, node);
      if index < 0 {
        return Some(Gone);
      }
      if newNext == null {
        SetChildren(parent, parent.children[..index + 1]);
        return None;
      }
      if newNext.parent != parent {
        return Some(NotAChild);
      }
      var newIndex := IndexOfChild(parent, newNext);
      if newIndex < 0 {
        return Some(Gone);
      }
      SetChildren(parent, parent.children[..index + 1] + parent.children[newIndex..]);
      return None;
    }

    // --- paths and reachability ---------------------------------------------------------

    method NodePath(n: Node) returns (path: Bytes)
      requires Valid() && n in nodes
      ensures Grounded(Snap(), n) && path == TreeRead.NodePath(Snap(), n)
    {
      ghost var s := Snap();
      hide IdsOk, Owned, Distinct;
      HeightStep(s, n);
      if n.parent == null {
        return [SLASH];
      }
      var keys: seq<Bytes> := [];
      var c := n;
      while c.parent != null
        invariant c in nodes && Grounded(s, c)
        invariant KeyPath(s, n) == KeyPath(s, c) + JoinReversed(keys)
        decreases Height(s, c)
      {
        HeightStep(s, c);
        JoinReversedSnoc(keys, c.key);
        keys := keys + [c.key];
        c := c.parent;
      }
      assert KeyPath(s, c) == [];
      path := JoinKeys(keys);
    }

    static method JoinKeys(keys: seq<Bytes>) returns (path: Bytes)
      ensures path == JoinReversed(keys)
    {
      path := [];
      var i := |keys|;
      assert keys[..|keys|] == keys;
      while i > 0
        invariant 0 <= i <= |keys|
        invariant path + JoinReversed(keys[..i]) == JoinReversed(keys)
      {
        i := i - 1;
        assert keys[..i + 1] == keys[..i] + [keys[i]];
        JoinReversedSnoc(keys[..i], keys[i]);
        path := path + [SLASH] + keys[i];
      }
    }

    /** isReachable, which only needs a parent chain that ends. */
    method IsReachable(node: Node) returns (reachable: bool)
      requires root in nodes && node in nodes && Grounded(Snap(), node)
      ensures reachable <==> Attached(Snap(), root, node)
      ensures Valid() ==> (reachable <==> Below(Snap(), root, node))
    {
      hide Tree.Valid, Attached, Below, Inv;
      ghost var s := Snap();
      if Valid() {
        Sound();
        AttachedIsBelow(s, root, node);
      }
      var n := node;
      while n != root
        invariant n in nodes && Grounded(s, n)
        invariant Attached(s, root, node) <==> Attached(s, root, n)
        decreases Height(s, n)
      {
        HeightStep(s, n);
        AttachedStep(s, root, n);
        if n.parent == null {
          return false;
        }
        var index := IndexOfChild(n.parent, n);
        if index < 0 {
          return false;
        }
        n := n.parent;
      }
      AttachedSelf(s, root);
      return true;
    }

    method IsDescendant(top: Node, node: Node) returns (below: bool)
      requires Valid() && node in nodes
      ensures Grounded(Snap(), node) && below == Descends(Snap(), top, node)
    {
      ghost var s := Snap();
      HeightStep(s, node);
      var n := node.parent;
      while n != null
        invariant n != null ==> n in nodes && Grounded(s, n)
        invariant Descends(s, top, node) <==> n != null && (n == top || Descends(s, top, n))
        decreases if n == null then 0 else Height(s, n) + 1
      {
        if n == top {
          return true;
        }
        HeightStep(s, n);
        n := n.parent;
      }
      return false;
    }

    // --- reading ---------------------------------------------------------------------------

    method RequireOp(auth: Option<Checker>, op: Op, n: Node) returns (allowed: bool)
      requires Valid() && n in nodes
      ensures Grounded(Snap(), n) && allowed == May(Snap(), auth, op, n)
    {
      var path := NodePath(n);
      return auth.None? || auth.value(op, path);
    }

    /** evaluateAs: the three nested loops. */
    method Evaluate(env: Engine, segments: seq<Segment>, auth: Option<Checker>) returns (current: seq<Node>)
      requires Valid()
      ensures current == TreeRead.Evaluate(env, Snap(), root, auth, segments)
      ensures forall n :: n in current ==> n in nodes
    {
      ghost var s := Snap();
      hide Inv, IdsOk, Matching, Walk;
      RootHasNoParent(s, root);
      WalkNothing(env, s, root, auth, segments);
      current := [root];
      var i := 0;
      while i < |segments|
        invariant 0 <= i <= |segments|
        invariant current == Walk(env, s, root, auth, segments, i)
        invariant forall n :: n in current ==> n in nodes
      {
        WalkStep(env, s, root, auth, segments, i + 1);
        current := OneLevel(env, segments[i], i == |segments| - 1, auth, current);
        i := i + 1;
      }
    }

    method OneLevel(env: Engine, seg: Segment, last: bool, auth: Option<Checker>, current: seq<Node>)
      returns (next: seq<Node>)
      requires Valid() && forall n :: n in current ==> n in nodes
      ensures next == Expand(Snap(), current, Matching(env, Snap(), auth, seg, last))
      ensures forall n :: n in next ==> n in nodes
    {
      ghost var s := Snap();
      ghost var q := Matching(env, s, auth, seg, last);
      hide Inv, Matching, KeepNodes, Expand;
      ExpandNil(s, q);
      next := [];
      var j := 0;
      while j < |current|
        invariant 0 <= j <= |current|
        invariant next == Expand(s, current[..j], q)
      {
        var found := MatchingChildren(env, seg, last, auth, current[j]);
        assert current[..j + 1] == current[..j] + [current[j]];
        ExpandSnoc(s, current[..j], current[j], q);
        next := next + found;
        j := j + 1;
      }
      assert current[..|current|] == current;
      ExpandMembers(s, current, q);
      MatchingInside(env, s, auth, seg, last);
    }

    method MatchingChildren(env: Engine, seg: Segment, last: bool, auth: Option<Checker>, node: Node)
      returns (next: seq<Node>)
      requires Valid() && node in nodes
      ensures next == KeepNodes(KidsOf(Snap(), node), Matching(env, Snap(), auth, seg, last))
    {
      ghost var s := Snap();
      ghost var q := Matching(env, s, auth, seg, last);
      hide Matching, KeepNodes, Inv, IdsOk;
      KeepNil(q);
      next := [];
      var k := 0;
      while k < |node.children|
        invariant 0 <= k <= |node.children|
        invariant next == KeepNodes(node.children[..k], q)
      {
        var child := node.children[k];
        assert node.children[..k + 1] == node.children[..k] + [child];
        KeepSnoc(node.children[..k], child, q);
        OwnedBy(s, root, node, child);
        var matches := ChildMatches(env, seg, last, auth, child);
        if matches {
          next := next + [child];
        }
        k := k + 1;
      }
      assert node.children[..|node.children|] == node.children;
    }

    method ChildMatches(env: Engine, seg: Segment, last: bool, auth: Option<Checker>, child: Node) returns (matches: bool)
      requires Valid() && child in nodes
      ensures matches <==> child in Matching(env, Snap(), auth, seg, last)
    {
      ghost var s := Snap();
      hide Matching, May, Inv, IdsOk;
      InvGrounds(s, root, child);
      InMatching(env, s, auth, seg, last, child);
      if !env.re.matches(seg.key, child.key) {
        return false;
      }
      var readable := RequireOp(auth, OpRead, child);
      if seg.value.Some? {
        if !readable {
          return false;
        }
        if !child.value.IsNumeric() && !child.value.OctetStringValue? {
          return false;
        }
        if !env.re.matches(seg.value.value, ValueText(env, child.value)) {
          return false;
        }
      }
      return readable || !last;
    }
  }

  lemma KeepNil(q: set<Node>)
    ensures KeepNodes([], q) == []
  {
  }

  lemma InMatching(env: Engine, s: Snap, auth: Option<Checker>, seg: Segment, last: bool, n: Node)
    requires n in s && Grounded(s, n)
    ensures n in Matching(env, s, auth, seg, last) <==>
              && env.re.matches(seg.key, n.key)
              && (seg.value.Some? ==>
                    && May(s, auth, OpRead, n)
                    && (s[n].value.IsNumeric() || s[n].value.OctetStringValue?)
                    && env.re.matches(seg.value.value, ValueText(env, s[n].value)))
              && (last ==> May(s, auth, OpRead, n))
  {
    hide May;
  }

  lemma WalkNothing(env: Engine, s: Snap, root: Node, auth: Option<Checker>, segments: seq<Segment>)
    ensures Walk(env, s, root, auth, segments, 0) == [root]
  {
  }

  lemma ExpandNil(s: Snap, q: set<Node>)
    ensures Expand(s, [], q) == []
  {
  }

  lemma MatchingInside(env: Engine, s: Snap, auth: Option<Checker>, seg: Segment, last: bool)
    ensures Matching(env, s, auth, seg, last) <= s.Keys
  {
  }

  /** The keys from last to first, each behind a slash. */
  function JoinReversed(keys: seq<Bytes>): Bytes {
    if keys == [] then [] else [SLASH] + keys[|keys| - 1] + JoinReversed(keys[..|keys| - 1])
  }

  lemma JoinReversedSnoc(keys: seq<Bytes>, key: Bytes)
    ensures JoinReversed(keys + [key]) == [SLASH] + key + JoinReversed(keys)
  {
    assert (keys + [key])[..|keys|] == keys;
  }

  lemma {:induction false} RemoveAtIndex(xs: seq<Node>, x: Node)
    requires x in xs
    ensures var i := IndexOf(xs, x); i >= 0 && Remove(xs, x) == xs[..i] + xs[i + 1..]
  {
    if xs[0] != x {
      RemoveAtIndex(xs[1..], x);
    }
  }
}
