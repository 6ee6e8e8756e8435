/**
 * The node tree of goimpl/internal/tree/tree.go: nodes as heap objects, the whole
 * heap of them seen as one value, and the invariant that holds of it.
 *
 * A node's parent field is never cleared when the node is cut loose, so parent
 * chains and child lists are two different things; the invariant relates them.
 */
module TreeState {
  import opened Basics
  import opened WireTypes

  class Node {
    const key: Bytes
    var value: NodeValue
    var children: seq<Node>
    var parent: Node?
    var id: nat          // assigned when the node is first attached; never changed

    constructor (key: Bytes, value: NodeValue)
      ensures this.key == key && this.value == value
      ensures children == [] && parent == null && id == 0
    {
      this.key, this.value := key, value;
      children, parent, id := [], null, 0;
    }
  }

  datatype Rec = Rec(value: NodeValue, parent: Node?, children: seq<Node>, id: nat)

  /** Every node ever made, with what its fields hold. */
  type Snap = map<Node, Rec>

  // --- the invariant ------------------------------------------------------------

  ghost predicate Closed(s: Snap) {
    forall n :: n in s ==> (forall c :: c in s[n].children ==> c in s) && (s[n].parent != null ==> s[n].parent in s)
  }

  /** A node in a child list has that list's owner as its parent. */
  ghost predicate Owned(s: Snap) {
    forall n, c :: n in s && c in s[n].children ==> c in s && s[c].parent == n
  }

  ghost predicate Distinct(s: Snap) {
    forall n :: n in s ==> NoDup(s[n].children)
  }

  /** The parent chain from n ends after at most k steps. */
  ghost predicate Climbs(s: Snap, n: Node, k: nat) {
    n in s && (s[n].parent == null || (k > 0 && Climbs(s, s[n].parent, k - 1)))
  }

  ghost predicate Grounded(s: Snap, n: Node) {
    exists k: nat :: Climbs(s, n, k)
  }

  /** No parent chain runs in a circle, whether its nodes are attached or not. */
  ghost predicate Acyclic(s: Snap) {
    forall n :: n in s ==> Grounded(s, n)
  }

  ghost predicate Inv(s: Snap, root: Node) {
    && root in s && s[root].parent == null
    && Closed(s) && Owned(s) && Distinct(s) && Acyclic(s)
  }

  /** Ids: the root's is 0, every other node's is its own and at most last. */
  ghost predicate IdsOk(s: Snap, root: Node, last: nat) {
    && root in s && s[root].id == 0
    && (forall n :: n in s && n != root ==> 0 < s[n].id <= last)
    && (forall m, n :: m in s && n in s && s[m].id == s[n].id ==> m == n)
  }

  // --- heights and parent chains --------------------------------------------------

  ghost function Steps(s: Snap, n: Node, k: nat): nat
    requires Climbs(s, n, k)
  {
    if s[n].parent == null then 0 else 1 + Steps(s, s[n].parent, k - 1)
  }

  lemma {:induction false} StepsUnique(s: Snap, n: Node, j: nat, k: nat)
    requires Climbs(s, n, j) && Climbs(s, n, k)
    ensures Steps(s, n, j) == Steps(s, n, k)
  {
    if s[n].parent != null {
      StepsUnique(s, s[n].parent, j - 1, k - 1);
    }
  }

  /** The length of n's parent chain. */
  ghost function Height(s: Snap, n: Node): nat
    requires Grounded(s, n)
  {
    var k: nat :| Climbs(s, n, k);
    Steps(s, n, k)
  }

  lemma HeightStep(s: Snap, n: Node)
    requires Grounded(s, n)
    ensures n in s
    ensures s[n].parent == null ==> Height(s, n) == 0
    ensures s[n].parent != null ==>
              s[n].parent in s && Grounded(s, s[n].parent) && Height(s, n) == Height(s, s[n].parent) + 1
  {
    var k: nat :| Climbs(s, n, k);
    var j: nat :| Climbs(s, n, j) && Height(s, n) == Steps(s, n, j);
    StepsUnique(s, n, j, k);
    if s[n].parent != null {
      var p := s[n].parent;
      assert Climbs(s, p, k - 1);
      var i: nat :| Climbs(s, p, i) && Height(s, p) == Steps(s, p, i);
      StepsUnique(s, p, i, k - 1);
    }
  }

  /** isDescendant: root is met on the parent chain above node. */
  ghost predicate Descends(s: Snap, root: Node, node: Node)
    requires Grounded(s, node)
    decreases Height(s, node)
  {
    HeightStep(s, node);
    s[node].parent != null && (s[node].parent == root || Descends(s, root, s[node].parent))
  }

  lemma {:induction false} DescendsHigher(s: Snap, root: Node, node: Node)
    requires Grounded(s, node) && Descends(s, root, node)
    ensures Grounded(s, root) && Height(s, root) < Height(s, node)
    decreases Height(s, node)
  {
    HeightStep(s, node);
    if s[node].parent != root {
      DescendsHigher(s, root, s[node].parent);
    }
  }

  lemma {:induction false} DescendsTransitive(s: Snap, a: Node, b: Node, c: Node)
    requires Grounded(s, b) && Grounded(s, c) && Descends(s, a, b) && Descends(s, b, c)
    ensures Descends(s, a, c)
    decreases Height(s, c)
  {
    HeightStep(s, c);
    if s[c].parent != b {
      DescendsTransitive(s, a, b, s[c].parent);
    }
  }

  /** n and everything whose parent chain passes through it. */
  ghost function Subtree(s: Snap, n: Node): set<Node>
    requires Acyclic(s)
  {
    set m | m in s && (m == n || Descends(s, n, m))
  }

  lemma SubtreeShrinks(s: Snap, root: Node, n: Node, c: Node)
    requires Inv(s, root) && n in s && c in s[n].children
    ensures Subtree(s, c) < Subtree(s, n)
  {
    HeightStep(s, c);
    assert Descends(s, n, c);
    forall m | m in Subtree(s, c)
      ensures m in Subtree(s, n)
    {
      if m != c {
        DescendsTransitive(s, n, c, m);
      }
    }
    if n in Subtree(s, c) && n != c {
      DescendsHigher(s, c, n);
    }
    assert n in Subtree(s, n) && n !in Subtree(s, c);
  }

  lemma RootHasNoParent(s: Snap, root: Node)
    requires Inv(s, root)
    ensures root in s && s[root].parent == null && Acyclic(s)
  {
  }

  lemma InvGrounds(s: Snap, root: Node, n: Node)
    requires Inv(s, root) && n in s
    ensures Grounded(s, n)
  {
  }

  lemma ParentInside(s: Snap, root: Node, n: Node)
    requires Inv(s, root) && n in s
    ensures s[n].parent != null ==> s[n].parent in s
  {
  }

  // --- reachability through child lists -------------------------------------------

  ghost predicate ReachIn(s: Snap, root: Node, n: Node, k: nat) {
    n in s && (n == root || (k > 0 && exists p :: p in s && n in s[p].children && ReachIn(s, root, p, k - 1)))
  }

  /** n is root or below it through child lists. */
  ghost predicate Below(s: Snap, root: Node, n: Node) {
    exists k: nat :: ReachIn(s, root, n, k)
  }

  lemma BelowStep(s: Snap, root: Node, p: Node, n: Node)
    requires p in s && n in s && n in s[p].children && Below(s, root, p)
    ensures Below(s, root, n)
  {
    var k: nat :| ReachIn(s, root, p, k);
    assert ReachIn(s, root, n, k + 1);
  }

  lemma BelowSelf(s: Snap, n: Node)
    requires n in s
    ensures Below(s, n, n)
  {
    assert ReachIn(s, n, n, 0);
  }

  /** Below, one step up: what IsReachable's loop checks at each node. */
  lemma BelowParent(s: Snap, root: Node, top: Node, n: Node)
    requires Inv(s, root) && n in s && n != top
    ensures Below(s, top, n) <==>
              s[n].parent != null && n in s[s[n].parent].children && Below(s, top, s[n].parent)
  {
    if Below(s, top, n) {
      var k: nat :| ReachIn(s, top, n, k);
      var p :| p in s && n in s[p].children && ReachIn(s, top, p, k - 1);
      assert s[n].parent == p;
    }
    if s[n].parent != null && n in s[s[n].parent].children && Below(s, top, s[n].parent) {
      BelowStep(s, top, s[n].parent, n);
    }
  }

  lemma {:induction false} BelowIsDescendant(s: Snap, root: Node, top: Node, n: Node)
    requires Inv(s, root) && n in s && Below(s, top, n)
    ensures top in s && (n == top || Descends(s, top, n))
    decreases Height(s, n)
  {
    BelowParent'(s, root, top, n);
    if n != top {
      HeightStep(s, n);
      BelowIsDescendant(s, root, top, s[n].parent);
    }
  }

  lemma BelowParent'(s: Snap, root: Node, top: Node, n: Node)
    requires Inv(s, root) && n in s && Below(s, top, n)
    ensures n != top ==> s[n].parent != null && n in s[s[n].parent].children && Below(s, top, s[n].parent)
  {
    if n != top {
      BelowParent(s, root, top, n);
    }
  }

  lemma {:induction false} BelowTransitive(s: Snap, root: Node, a: Node, b: Node, c: Node)
    requires Inv(s, root) && c in s && Below(s, a, b) && Below(s, b, c)
    ensures Below(s, a, c)
    decreases Height(s, c)
  {
    if c != b {
      BelowParent(s, root, b, c);
      HeightStep(s, c);
      BelowTransitive(s, root, a, b, s[c].parent);
      BelowStep(s, a, s[c].parent, c);
    }
  }

  /** What isReachable's loop finds: each node on the parent chain up to root is in its parent's list. */
  ghost predicate AttachedIn(s: Snap, root: Node, n: Node, k: nat) {
    n in s && (n == root ||
               (k > 0 && s[n].parent != null && n in KidsOf(s, s[n].parent) && AttachedIn(s, root, s[n].parent, k - 1)))
  }

  ghost predicate Attached(s: Snap, root: Node, n: Node) {
    exists k: nat :: AttachedIn(s, root, n, k)
  }

  lemma AttachedStep(s: Snap, root: Node, n: Node)
    requires n in s && n != root
    ensures Attached(s, root, n) <==>
              s[n].parent != null && n in KidsOf(s, s[n].parent) && Attached(s, root, s[n].parent)
  {
    if Attached(s, root, n) {
      var k: nat :| AttachedIn(s, root, n, k);
      assert AttachedIn(s, root, s[n].parent, k - 1);
    }
    if s[n].parent != null && n in KidsOf(s, s[n].parent) && Attached(s, root, s[n].parent) {
      var k: nat :| AttachedIn(s, root, s[n].parent, k);
      assert AttachedIn(s, root, n, k + 1);
    }
  }

  lemma AttachedSelf(s: Snap, root: Node)
    requires root in s
    ensures Attached(s, root, root)
  {
    assert AttachedIn(s, root, root, 0);
  }

  /** In a tree that satisfies the invariant that is reachability. */
  lemma {:induction false} AttachedIsBelow(s: Snap, root: Node, n: Node)
    requires Inv(s, root) && n in s
    ensures Attached(s, root, n) <==> Below(s, root, n)
    decreases Height(s, n)
  {
    hide Attached, Below;
    if n == root {
      AttachedSelf(s, root);
      BelowSelf(s, root);
    } else {
      HeightStep(s, n);
      AttachedStep(s, root, n);
      BelowParent(s, root, root, n);
      if s[n].parent != null {
        AttachedIsBelow(s, root, s[n].parent);
      }
    }
  }

  /** A set that holds root and is closed under child lists holds everything reachable. */
  lemma {:induction false} ReachStaysIn(s: Snap, root: Node, n: Node, k: nat, R: set<Node>)
    requires ReachIn(s, root, n, k) && root in R
    requires forall p, c :: p in s && p in R && c in s[p].children ==> c in R
    ensures n in R
  {
    if n != root {
      var p :| p in s && n in s[p].children && ReachIn(s, root, p, k - 1);
      ReachStaysIn(s, root, p, k - 1, R);
    }
  }

  ghost function ReachSet(s: Snap, root: Node): set<Node> {
    set n | n in s && Below(s, root, n)
  }

  /** Where every reachable node's list only holds nodes that were reachable, nothing new is reachable. */
  lemma ReachShrinks(s: Snap, s': Snap, root: Node)
    requires root in s
    requires forall p, c :: p in s' && p in ReachSet(s, root) && c in s'[p].children ==> c in ReachSet(s, root)
    ensures ReachSet(s', root) <= ReachSet(s, root)
  {
    BelowSelf(s, root);
    forall n | n in ReachSet(s', root)
      ensures n in ReachSet(s, root)
    {
      var k: nat :| ReachIn(s', root, n, k);
      ReachStaysIn(s', root, n, k, ReachSet(s, root));
    }
  }

  function Members(xs: seq<Node>): set<Node> {
    set x | x in xs
  }

  /** A node's fields, also for a node that is not in the snapshot. */
  function KidsOf(s: Snap, n: Node): seq<Node> {
    if n in s then s[n].children else []
  }

  function ParentOf(s: Snap, n: Node): Node? {
    if n in s then s[n].parent else null
  }

  function ValueOf(s: Snap, n: Node): NodeValue {
    if n in s then s[n].value else NoValue
  }

  lemma KidsOfRecord(s: Snap, n: Node)
    requires n in s
    ensures KidsOf(s, n) == s[n].children
  {
  }

  // --- changes to one node ----------------------------------------------------------

  function WithValue(s: Snap, n: Node, v: NodeValue): Snap {
    if n in s then s[n := s[n].(value := v)] else s
  }

  function WithChildren(s: Snap, n: Node, cs: seq<Node>): Snap {
    if n in s then s[n := s[n].(children := cs)] else s
  }

  function WithParent(s: Snap, n: Node, p: Node?): Snap {
    if n in s then s[n := s[n].(parent := p)] else s
  }

  /** Parent chains are the same where parent fields are. */
  lemma {:induction false} ClimbsSame(s: Snap, s': Snap, n: Node, k: nat)
    requires Climbs(s, n, k)
    requires forall m :: m in s ==> m in s' && s'[m].parent == s[m].parent
    ensures Climbs(s', n, k)
  {
    if s[n].parent != null {
      ClimbsSame(s, s', s[n].parent, k - 1);
    }
  }

  lemma GroundedSame(s: Snap, s': Snap)
    requires Acyclic(s)
    requires s'.Keys == s.Keys && forall m :: m in s ==> s'[m].parent == s[m].parent
    ensures Acyclic(s')
  {
    forall n | n in s'
      ensures Grounded(s', n)
    {
      var k: nat :| Climbs(s, n, k);
      ClimbsSame(s, s', n, k);
    }
  }

  /** Changing values, and dropping entries from child lists, keeps the invariant. */
  lemma ShrunkListsKeepInv(s: Snap, s': Snap, root: Node)
    requires Inv(s, root) && s'.Keys == s.Keys
    requires forall n :: n in s ==> s'[n].parent == s[n].parent
    requires forall n, c :: n in s && c in s'[n].children ==> c in s[n].children
    requires forall n :: n in s ==> NoDup(s'[n].children)
    ensures Inv(s', root)
  {
    GroundedSame(s, s');
  }

  // --- a new node ---------------------------------------------------------------------

  /** AppendChild of a node that is not yet in the tree. */
  function Appended(s: Snap, parent: Node, n: Node, value: NodeValue, id: nat): Snap
    requires parent in s
  {
    s[n := Rec(value, parent, [], id)][parent := s[parent].(children := s[parent].children + [n])]
  }

  lemma AppendedFields(s: Snap, parent: Node, n: Node, value: NodeValue, id: nat)
    requires parent in s && n !in s
    ensures var s' := Appended(s, parent, n, value, id);
            && s'.Keys == s.Keys + {n}
            && s'[n] == Rec(value, parent, [], id)
            && s'[parent] == s[parent].(children := s[parent].children + [n])
            && forall m :: m in s && m != parent ==> s'[m] == s[m]
  {
  }

  lemma AppendedAcyclic(s: Snap, s': Snap, parent: Node, n: Node)
    requires Acyclic(s) && parent in s && n !in s
    requires s'.Keys == s.Keys + {n} && s'[n].parent == parent
    requires forall m :: m in s ==> s'[m].parent == s[m].parent
    ensures Acyclic(s')
  {
    forall m | m in s'
      ensures Grounded(s', m)
    {
      var p := if m == n then parent else m;
      var k: nat :| Climbs(s, p, k);
      ClimbsSame(s, s', p, k);
      if m == n {
        assert Climbs(s', n, k + 1);
      }
    }
  }

  lemma AppendedShape(s: Snap, root: Node, parent: Node, n: Node, value: NodeValue, id: nat)
    requires Inv(s, root) && parent in s && n !in s
    ensures var s' := Appended(s, parent, n, value, id); Closed(s') && Owned(s') && Distinct(s')
  {
    hide Appended, Acyclic;
    AppendedFields(s, parent, n, value, id);
    NoDupSnoc(s[parent].children, n);
  }

  lemma NoDupSnoc<T>(xs: seq<T>, x: T)
    requires NoDup(xs) && x !in xs
    ensures NoDup(xs + [x])
  {
  }

  lemma NoDupCons<T>(x: T, xs: seq<T>)
    ensures NoDup([x] + xs) <==> x !in xs && NoDup(xs)
  {
    var ys := [x] + xs;
    if NoDup(ys) {
      forall i | 0 <= i < |xs|
        ensures xs[i] != x
      {
        assert ys[0] != ys[i + 1];
      }
      forall i, j | 0 <= i < j < |xs|
        ensures xs[i] != xs[j]
      {
        assert ys[i + 1] != ys[j + 1];
      }
    }
  }

  lemma AppendedIds(s: Snap, root: Node, parent: Node, n: Node, value: NodeValue, last: nat)
    requires IdsOk(s, root, last) && parent in s && n !in s
    ensures IdsOk(Appended(s, parent, n, value, last + 1), root, last + 1)
  {
    hide Appended;
    var s' := Appended(s, parent, n, value, last + 1);
    AppendedFields(s, parent, n, value, last + 1);
    assert s'[n].id == last + 1 && s'[root].id == 0;
    assert forall m :: m in s ==> s'[m].id == s[m].id;
    assert forall m :: m in s ==> s[m].id <= last;
    forall a, b | a in s' && b in s' && s'[a].id == s'[b].id
      ensures a == b
    {
      if a in s && b in s {
        assert s[a].id == s[b].id;
      }
    }
  }

  lemma AppendedKeepsInv(s: Snap, root: Node, parent: Node, n: Node, value: NodeValue, last: nat)
    requires Inv(s, root) && IdsOk(s, root, last) && parent in s && n !in s
    ensures Inv(Appended(s, parent, n, value, last + 1), root)
    ensures IdsOk(Appended(s, parent, n, value, last + 1), root, last + 1)
    ensures ReachSet(Appended(s, parent, n, value, last + 1), root) <= ReachSet(s, root) + {n}
  {
    hide Appended, Closed, Owned, Distinct, Acyclic, ReachSet;
    AppendedFields(s, parent, n, value, last + 1);
    AppendedShape(s, root, parent, n, value, last + 1);
    AppendedReach(s, root, parent, n, value, last + 1);
    AppendedIds(s, root, parent, n, value, last);
    AppendedAcyclic(s, Appended(s, parent, n, value, last + 1), parent, n);
  }

  lemma AppendedReach(s: Snap, root: Node, parent: Node, n: Node, value: NodeValue, id: nat)
    requires Inv(s, root) && parent in s && n !in s
    ensures ReachSet(Appended(s, parent, n, value, id), root) <= ReachSet(s, root) + {n}
  {
    var s' := Appended(s, parent, n, value, id);
    hide Appended, Acyclic, Distinct;
    AppendedFields(s, parent, n, value, id);
    var R := ReachSet(s, root) + {n};
    BelowSelf(s, root);
    forall p, c | p in s' && p in R && c in s'[p].children
      ensures c in R
    {
      if p != n && c != n {
        BelowStep(s, root, p, c);
      }
    }
    forall m | m in ReachSet(s', root)
      ensures m in R
    {
      var k: nat :| ReachIn(s', root, m, k);
      ReachStaysIn(s', root, m, k, R);
    }
  }

  // --- moving a node ------------------------------------------------------------------

  /** xs without its first x, as removeChild leaves a list. */
  function Remove<T(==)>(xs: seq<T>, x: T): (r: seq<T>)
    ensures forall y :: y in r ==> y in xs
    ensures |r| <= |xs|
  {
    if xs == [] then [] else if xs[0] == x then xs[1..] else [xs[0]] + Remove(xs[1..], x)
  }

  lemma {:induction false} RemoveSpec<T>(xs: seq<T>, x: T)
    requires NoDup(xs)
    ensures NoDup(Remove(xs, x))
    ensures forall y :: y in Remove(xs, x) <==> y in xs && y != x
  {
    if xs != [] {
      assert xs == [xs[0]] + xs[1..];
      NoDupCons(xs[0], xs[1..]);
      RemoveSpec(xs[1..], x);
      NoDupCons(xs[0], Remove(xs[1..], x));
      hide NoDup;
    }
  }

  /** The newParent edit's three assignments. */
  function Moved(s: Snap, t: Node, newParent: Node): Snap {
    var op := ParentOf(s, t);
    var s1 := if op == null then s else WithChildren(s, op, Remove(KidsOf(s, op), t));
    var s2 := WithParent(s1, t, newParent);
    WithChildren(s2, newParent, KidsOf(s2, newParent) + [t])
  }

  function MovedList(s: Snap, t: Node, np: Node, n: Node): seq<Node>
    requires t in s && n in s
  {
    (if n == s[t].parent then Remove(s[n].children, t) else s[n].children) + (if n == np then [t] else [])
  }

  lemma MovedRecords(s: Snap, t: Node, np: Node)
    requires t in s && np in s && (s[t].parent != null ==> s[t].parent in s)
    ensures Moved(s, t, np).Keys == s.Keys
    ensures forall n :: n in s ==>
              Moved(s, t, np)[n] == Rec(s[n].value, if n == t then np else s[n].parent, MovedList(s, t, np, n), s[n].id)
  {
    hide Remove;
    forall n | n in s
      ensures Moved(s, t, np)[n] == Rec(s[n].value, if n == t then np else s[n].parent, MovedList(s, t, np, n), s[n].id)
    {
      assert s[n].children + [] == s[n].children;
      assert Remove(s[n].children, t) + [] == Remove(s[n].children, t);
    }
  }

  lemma MovedListSpec(s: Snap, root: Node, t: Node, np: Node, n: Node)
    requires Inv(s, root) && t in s && np in s && n in s
    ensures NoDup(MovedList(s, t, np, n))
    ensures forall c :: c in MovedList(s, t, np, n) <==> if c == t then n == np else c in s[n].children
  {
    hide Acyclic, Closed;
    RemoveSpec(s[n].children, t);
    hide Remove;
    var before := if n == s[t].parent then Remove(s[n].children, t) else s[n].children;
    assert t !in before;
    NoDupSnoc(before, t);
    hide NoDup;
    assert before + [] == before;
  }

  lemma MovedFields(s: Snap, root: Node, t: Node, np: Node)
    requires Inv(s, root) && t in s && np in s
    ensures var s' := Moved(s, t, np);
            && s'.Keys == s.Keys
            && (forall n :: n in s ==> s'[n].value == s[n].value && s'[n].id == s[n].id)
            && (forall n :: n in s ==> s'[n].parent == if n == t then np else s[n].parent)
            && (forall n :: n in s ==> NoDup(s'[n].children))
            && (forall n, c :: n in s ==> (c in s'[n].children <==> if c == t then n == np else c in s[n].children))
  {
    MovedRecords(s, t, np);
    forall n | n in s
      ensures NoDup(Moved(s, t, np)[n].children)
      ensures forall c :: c in Moved(s, t, np)[n].children <==> if c == t then n == np else c in s[n].children
    {
      MovedListSpec(s, root, t, np, n);
    }
  }

  /**
   * A move keeps the invariant exactly when its destination is neither the moved
   * node nor below it; otherwise the moved node's parent chain becomes a circle.
   */
  lemma MovedKeepsInv(s: Snap, root: Node, t: Node, np: Node)
    requires Inv(s, root) && t in s && np in s && t != root
    ensures Inv(Moved(s, t, np), root) <==> np !in Subtree(s, t)
  {
    hide Moved, Closed, Owned, Distinct, Acyclic, Subtree;
    MovedShape(s, root, t, np);
    MovedAcyclic(s, root, t, np);
  }

  /** The invariant but for parent chains and the root's own parent. */
  ghost predicate Shape(s: Snap) {
    Closed(s) && Owned(s) && Distinct(s)
  }

  lemma MovedKeepsShape(s: Snap, t: Node, np: Node)
    requires Shape(s) && t in s && np in s
    ensures Shape(Moved(s, t, np)) && Moved(s, t, np).Keys == s.Keys
  {
    ParentClosed(s, t);
    MovedRecords(s, t, np);
    var s' := Moved(s, t, np);
    hide Moved, Closed, Owned, Distinct, MovedList, NoDup;
    forall n | n in s'
      ensures NoDup(s'[n].children) && (s'[n].parent != null ==> s'[n].parent in s')
      ensures forall c :: c in s'[n].children ==> c in s' && s'[c].parent == n
    {
      MovedListOwned(s, t, np, n);
      ParentClosed(s, n);
    }
    ShapeFrom(s');
  }

  lemma ParentClosed(s: Snap, n: Node)
    requires Shape(s) && n in s
    ensures s[n].parent != null ==> s[n].parent in s
  {
  }

  lemma ShapeFrom(s: Snap)
    requires forall n :: n in s ==> NoDup(s[n].children) && (s[n].parent != null ==> s[n].parent in s)
    requires forall n, c :: n in s && c in s[n].children ==> c in s && s[c].parent == n
    ensures Shape(s)
  {
    hide NoDup;
  }

  lemma MovedListOwned(s: Snap, t: Node, np: Node, n: Node)
    requires Shape(s) && t in s && np in s && n in s
    ensures NoDup(MovedList(s, t, np, n))
    ensures forall c :: c in MovedList(s, t, np, n) ==> c in s && if c == t then n == np else s[c].parent == n
  {
    hide Closed;
    RemoveSpec(s[n].children, t);
    hide Remove;
    var before := if n == s[t].parent then Remove(s[n].children, t) else s[n].children;
    assert t !in before;
    NoDupSnoc(before, t);
    hide NoDup;
    assert before + [] == before;
  }

  lemma MovedShape(s: Snap, root: Node, t: Node, np: Node)
    requires Inv(s, root) && t in s && np in s && t != root
    ensures var s' := Moved(s, t, np);
            root in s' && s'[root].parent == null && Closed(s') && Owned(s') && Distinct(s')
  {
    hide Moved, Closed, Owned, Distinct, Acyclic;
    MovedKeepsShape(s, t, np);
    RootUnmoved(s, root, t, np);
  }

  lemma RootUnmoved(s: Snap, root: Node, t: Node, np: Node)
    requires Inv(s, root) && t in s && np in s && t != root
    ensures root in Moved(s, t, np) && Moved(s, t, np)[root].parent == null
  {
    hide Owned, Distinct, Acyclic;
    MovedRecords(s, t, np);
    hide Moved;
  }

  lemma MovedAcyclic(s: Snap, root: Node, t: Node, np: Node)
    requires Inv(s, root) && t in s && np in s && t != root
    ensures Acyclic(Moved(s, t, np)) <==> np !in Subtree(s, t)
  {
    hide Moved, Climbs, Closed, Owned, Distinct, NoDup;
    var s' := Moved(s, t, np);
    MovedFields(s, root, t, np);
    if np in Subtree(s, t) {
      forall k: nat
        ensures !Climbs(s', t, k)
      {
        CircleNeverEnds(s, s', root, t, np, t, k);
      }
      assert !Grounded(s', t);
    } else {
      forall n | n in s
        ensures Grounded(s', n)
      {
        MovedGrounded(s, s', root, t, np, n);
      }
    }
  }

  lemma {:induction false} CircleNeverEnds(s: Snap, s': Snap, root: Node, t: Node, np: Node, n: Node, k: nat)
    requires Inv(s, root) && t in s && np in Subtree(s, t) && n in Subtree(s, t)
    requires forall m :: m in s ==> m in s' && s'[m].parent == if m == t then np else s[m].parent
    ensures !Climbs(s', n, k)
  {
    HeightStep(s, n);
    var p := s'[n].parent;
    assert p != null && p in Subtree(s, t);
    if k > 0 {
      CircleNeverEnds(s, s', root, t, np, p, k - 1);
    }
  }

  lemma {:induction false} MovedGrounded(s: Snap, s': Snap, root: Node, t: Node, np: Node, n: Node)
    requires Inv(s, root) && t in s && np in s && np !in Subtree(s, t) && n in s
    requires forall m :: m in s ==> m in s' && s'[m].parent == if m == t then np else s[m].parent
    ensures Grounded(s', n)
    decreases n in Subtree(s, t), Height(s, n)
  {
    HeightStep(s, n);
    var p := s'[n].parent;
    if p == null {
      assert Climbs(s', n, 0);
    } else {
      if n != t && p in Subtree(s, t) {
        assert n in Subtree(s, t);
      }
      MovedGrounded(s, s', root, t, np, p);
      var k: nat :| Climbs(s', p, k);
      assert Climbs(s', n, k + 1);
    }
  }

  lemma MovedReach(s: Snap, s': Snap, root: Node, R: set<Node>, t: Node, np: Node)
    requires Inv(s, root) && t in s && np in s && s' == Moved(s, t, np)
    requires t in R && forall p, c :: p in s && p in R && c in s[p].children ==> c in R
    ensures forall p, c :: p in s' && p in R && c in s'[p].children ==> c in R
  {
    MovedFields(s, root, t, np);
  }
}
