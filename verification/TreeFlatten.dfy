/**
 * Flattening heap nodes, after goimpl/internal/tree/tree.go:327-381: a recursive visit
 * that numbers the nodes, maps from node to position, and a second pass that turns the
 * maps into offsets; proved to give the array of Flatten.Flat.
 */
module TreeFlatten {
  import opened Basics
  import opened WireTypes
  import opened Flatten
  import opened TreeState

  /** A heap tree seen as a value: a node, and the shapes of its children in order. */
  datatype Shape = Shape(node: Node, kids: seq<Shape>)

  function PreOrder(ts: seq<Shape>): seq<Node> {
    if ts == [] then [] else [ts[0].node] + PreOrder(ts[0].kids) + PreOrder(ts[1..])
  }

  function Heads(ts: seq<Shape>): (ns: seq<Node>)
    ensures |ns| == |ts|
  {
    if ts == [] then [] else [ts[0].node] + Heads(ts[1..])
  }

  /** The child lists are the ones that the shapes say. */
  predicate Shaped(s: Snap, ts: seq<Shape>) {
    ts != [] ==>
      && ts[0].node in s && s[ts[0].node].children == Heads(ts[0].kids)
      && Shaped(s, ts[0].kids) && Shaped(s, ts[1..])
  }

  /** The heap holds what s says. */
  ghost predicate Mirrors(s: Snap)
    reads s.Keys`children, s.Keys`value
  {
    forall n :: n in s ==> n.children == s[n].children && n.value == s[n].value
  }

  /** The forest of keys and values. */
  function Roses(s: Snap, ts: seq<Shape>): (rs: seq<Rose>)
    ensures |rs| == |ts| && Size(rs) == |PreOrder(ts)|
  {
    if ts == [] then []
    else [Rose(ts[0].node.key, ValueOf(s, ts[0].node), Roses(s, ts[0].kids))] + Roses(s, ts[1..])
  }

  lemma {:induction false} PreOrderConcat(a: seq<Shape>, b: seq<Shape>)
    ensures PreOrder(a + b) == PreOrder(a) + PreOrder(b)
  {
    if a == [] {
      assert a + b == b;
    } else {
      assert (a + b)[1..] == a[1..] + b;
      PreOrderConcat(a[1..], b);
    }
  }

  lemma {:induction false} HeadsAt(ts: seq<Shape>, k: nat)
    requires k < |ts|
    ensures Heads(ts)[k] == ts[k].node
  {
    if k > 0 {
      HeadsAt(ts[1..], k - 1);
    }
  }

  lemma {:induction false} HeadInPreOrder(ts: seq<Shape>, k: nat)
    requires k < |ts|
    ensures ts[k].node in PreOrder(ts)
  {
    if k > 0 {
      HeadInPreOrder(ts[1..], k - 1);
    }
  }

  lemma {:induction false} ShapedAt(s: Snap, ts: seq<Shape>, k: nat)
    requires Shaped(s, ts) && k < |ts|
    ensures Shaped(s, [ts[k]])
  {
    if k > 0 {
      ShapedAt(s, ts[1..], k - 1);
    } else {
      assert [ts[0]][1..] == [];
    }
  }

  lemma NoDupParts<T>(a: seq<T>, b: seq<T>)
    requires NoDup(a + b)
    ensures NoDup(a) && NoDup(b) && forall x :: x in a ==> x !in b
  {
    var c := a + b;
    forall i, j | 0 <= i < j < |a|
      ensures a[i] != a[j]
    {
      assert c[i] != c[j];
    }
    forall i, j | 0 <= i < j < |b|
      ensures b[i] != b[j]
    {
      assert c[|a| + i] != c[|a| + j];
    }
    forall i, j | 0 <= i < |a| && 0 <= j < |b|
      ensures a[i] != b[j]
    {
      assert c[i] != c[|a| + j];
    }
  }

  // --- the visit ------------------------------------------------------------------------------

  /** Each child list of the nodes of S is recorded: whose it is, and who stands where in it. */
  ghost predicate Linked(s: Snap, parentOf: map<Node, Node?>, siblingIndex: map<Node, nat>, S: set<Node>) {
    forall m, i :: m in S && 0 <= i < |KidsOf(s, m)| ==>
      var c := KidsOf(s, m)[i];
      c in parentOf && parentOf[c] == m && c in siblingIndex && siblingIndex[c] == i
  }

  lemma {:induction false} ChildrenInside(s: Snap, ts: seq<Shape>, m: Node, i: nat)
    requires Shaped(s, ts) && m in PreOrder(ts) && i < |KidsOf(s, m)|
    ensures KidsOf(s, m)[i] in PreOrder(ts)
  {
    var t := ts[0];
    if m == t.node {
      HeadsAt(t.kids, i);
      HeadInPreOrder(t.kids, i);
    } else if m in PreOrder(t.kids) {
      ChildrenInside(s, t.kids, m, i);
    } else {
      ChildrenInside(s, ts[1..], m, i);
    }
  }

  /** Records of S survive changes to the records of nodes outside S. */
  lemma StillLinked(s: Snap, p: map<Node, Node?>, q: map<Node, nat>, p': map<Node, Node?>, q': map<Node, nat>,
                    ts: seq<Shape>, T: set<Node>)
    requires Shaped(s, ts) && Linked(s, p, q, Members(PreOrder(ts))) && Members(PreOrder(ts)) !! T
    requires p' - T == p - T && q' - T == q - T
    ensures Linked(s, p', q', Members(PreOrder(ts)))
  {
    hide PreOrder, Shaped;
    var S := Members(PreOrder(ts));
    forall m, i | m in S && 0 <= i < |KidsOf(s, m)|
      ensures var c := KidsOf(s, m)[i]; c in p' && p'[c] == m && c in q' && q'[c] == i
    {
      var c := KidsOf(s, m)[i];
      ChildrenInside(s, ts, m, i);
      assert c in p - T && c in q - T;
      assert (p' - T)[c] == (p - T)[c] && (q' - T)[c] == (q - T)[c];
    }
  }

  lemma LinkedUnion(s: Snap, p: map<Node, Node?>, q: map<Node, nat>, S: set<Node>, T: set<Node>)
    requires Linked(s, p, q, S) && Linked(s, p, q, T)
    ensures Linked(s, p, q, S + T)
  {
  }

  lemma MapsAgree<V>(p: map<Node, V>, p': map<Node, V>, T: set<Node>, c: Node)
    requires p' - T == p - T && c !in T
    ensures c in p' <==> c in p
    ensures c in p ==> p'[c] == p[c]
  {
    if c in p {
      assert c in p - T && (p' - T)[c] == (p - T)[c];
    }
    if c in p' {
      assert c in p' - T;
    }
  }

  lemma MapsAgreeMore<V>(p: map<Node, V>, p': map<Node, V>, p'': map<Node, V>, T: set<Node>, U: set<Node>)
    requires p' - U == p - U && p'' - T == p' - T && T <= U
    ensures p'' - U == p - U
  {
    forall c | c !in U
      ensures c in p'' <==> c in p
      ensures c in p ==> p''[c] == p[c]
    {
      MapsAgree(p, p', U, c);
      MapsAgree(p', p'', T, c);
    }
  }

  /** The variables that the visiting closure captures. */
  datatype Numbering = Numbering(order: seq<Node>, parentOf: map<Node, Node?>, siblingIndex: map<Node, nat>)

  /** b agrees with a except on the nodes of T. */
  ghost predicate SameElsewhere(a: Numbering, b: Numbering, T: set<Node>) {
    b.parentOf - T == a.parentOf - T && b.siblingIndex - T == a.siblingIndex - T
  }

  ghost predicate Records(s: Snap, a: Numbering, ts: seq<Shape>) {
    Linked(s, a.parentOf, a.siblingIndex, Members(PreOrder(ts)))
  }

  /** The children of n, each with its place in n's list. */
  ghost predicate Placed(siblingIndex: map<Node, nat>, children: seq<Node>) {
    forall i :: 0 <= i < |children| ==> children[i] in siblingIndex && siblingIndex[children[i]] == i
  }

  ghost predicate Adopted(parentOf: map<Node, Node?>, children: seq<Node>, n: Node) {
    forall i :: 0 <= i < |children| ==> children[i] in parentOf && parentOf[children[i]] == n
  }

  /** The first loop of the visit: where each child stands. */
  method NumberChildren(n: Node, siblingIndex: map<Node, nat>) returns (siblingIndex': map<Node, nat>)
    requires NoDup(n.children)
    ensures Placed(siblingIndex', n.children)
    ensures siblingIndex' - Members(n.children) == siblingIndex - Members(n.children)
  {
    siblingIndex' := siblingIndex;
    var i := 0;
    while i < |n.children|
      invariant 0 <= i <= |n.children|
      invariant Placed(siblingIndex', n.children[..i])
      invariant siblingIndex' - Members(n.children) == siblingIndex - Members(n.children)
    {
      assert n.children[i] in Members(n.children);
      siblingIndex' := siblingIndex'[n.children[i] := i];
      i := i + 1;
    }
    assert n.children[..|n.children|] == n.children;
  }

  /** The visit of n: n first, then each child's own visit. */
  method Visit(n: Node, parent: Node?, a: Numbering, ghost s: Snap, ghost t: Shape) returns (b: Numbering)
    requires Mirrors(s) && t.node == n && Shaped(s, [t]) && NoDup(PreOrder([t]))
    ensures b.order == a.order + PreOrder([t])
    ensures n in b.parentOf && b.parentOf[n] == parent
    ensures Records(s, b, [t]) && SameElsewhere(a, b, Members(PreOrder([t])))
    ensures b.siblingIndex - Members(PreOrder(t.kids)) == a.siblingIndex - Members(PreOrder(t.kids))
    decreases t, 1
  {
    hide PreOrder, Shaped, Linked, NoDup, Heads, Placed, Adopted, Members;
    VisitParts(s, t);
    var siblingIndex := NumberChildren(n, a.siblingIndex);
    var c := Numbering(a.order + [n], a.parentOf[n := parent], siblingIndex);
    b := VisitChildren(n, c, s, t);
    ghost var below, all := Members(PreOrder(t.kids)), Members(PreOrder([t]));
    MapsAgree(c.parentOf, b.parentOf, below, n);
    LinkedTop(s, b.parentOf, b.siblingIndex, n, below);
    MapsAgreeMore(a.parentOf, c.parentOf, b.parentOf, below, all);
    AgreeOnMore(a.siblingIndex, siblingIndex, Members(n.children), below);
    MapsAgreeMore(a.siblingIndex, siblingIndex, b.siblingIndex, below, below);
    AgreeOnMore(a.siblingIndex, b.siblingIndex, below, all);
  }

  method VisitChildren(n: Node, a: Numbering, ghost s: Snap, ghost t: Shape) returns (b: Numbering)
    requires Mirrors(s) && n in s && KidsOf(s, n) == Heads(t.kids) && Shaped(s, t.kids) && NoDup(PreOrder(t.kids))
    requires Placed(a.siblingIndex, KidsOf(s, n))
    ensures b.order == a.order + PreOrder(t.kids)
    ensures Records(s, b, t.kids) && SameElsewhere(a, b, Members(PreOrder(t.kids)))
    ensures Placed(b.siblingIndex, KidsOf(s, n)) && Adopted(b.parentOf, KidsOf(s, n), n)
    decreases t, 0
  {
    hide PreOrder, Shaped, Records, NoDup, Heads, Members, SameElsewhere, Placed, Adopted;
    ghost var all := Members(PreOrder(t.kids));
    NothingVisited(s, a, n);
    b := a;
    var k := 0;
    while k < |n.children|
      invariant 0 <= k <= |n.children|
      invariant b.order == a.order + PreOrder(t.kids[..k])
      invariant Shaped(s, t.kids[..k]) && Records(s, b, t.kids[..k]) && SameElsewhere(a, b, all)
      invariant Placed(b.siblingIndex, n.children) && Adopted(b.parentOf, n.children[..k], n)
    {
      KidParts(s, t.kids, k);
      ghost var before := b;
      b := Visit(n.children[k], n, b, s, t.kids[k]);
      AfterVisit(s, n, a, before, b, t, k, n.children);
      k := k + 1;
    }
    assert t.kids[..|t.kids|] == t.kids && n.children[..|n.children|] == n.children;
  }

  /** One more child visited: what was recorded before still stands. */
  lemma AfterVisit(s: Snap, n: Node, a: Numbering, b: Numbering, c: Numbering, t: Shape, k: nat, kids: seq<Node>)
    requires k < |t.kids| && kids == Heads(t.kids) && Shaped(s, t.kids) && NoDup(PreOrder(t.kids)) && Shaped(s, t.kids[..k])
    requires Records(s, b, t.kids[..k]) && SameElsewhere(a, b, Members(PreOrder(t.kids)))
    requires Placed(b.siblingIndex, kids) && Adopted(b.parentOf, kids[..k], n)
    requires kids[k] in c.parentOf && c.parentOf[kids[k]] == n
    requires Records(s, c, [t.kids[k]]) && SameElsewhere(b, c, Members(PreOrder([t.kids[k]])))
    requires c.siblingIndex - Members(PreOrder(t.kids[k].kids)) == b.siblingIndex - Members(PreOrder(t.kids[k].kids))
    ensures Records(s, c, t.kids[..k + 1]) && SameElsewhere(a, c, Members(PreOrder(t.kids)))
    ensures Placed(c.siblingIndex, kids) && Adopted(c.parentOf, kids[..k + 1], n)
  {
    hide PreOrder, Shaped, Linked, NoDup, Heads, Members;
    var before, one := t.kids[..k], Members(PreOrder([t.kids[k]]));
    KidParts(s, t.kids, k);
    KidsApart(t.kids, k);
    StillLinked(s, b.parentOf, b.siblingIndex, c.parentOf, c.siblingIndex, before, one);
    LinkedUnion(s, c.parentOf, c.siblingIndex, Members(PreOrder(before)), one);
    forall i | 0 <= i < k + 1
      ensures kids[i] in c.parentOf && c.parentOf[kids[i]] == n
    {
      if i < k {
        assert kids[..k][i] == kids[i];
        MapsAgree(b.parentOf, c.parentOf, one, kids[i]);
      }
    }
    forall i | 0 <= i < |kids|
      ensures kids[i] in c.siblingIndex && c.siblingIndex[kids[i]] == i
    {
      MapsAgree(b.siblingIndex, c.siblingIndex, Members(PreOrder(t.kids[k].kids)), kids[i]);
    }
    MapsAgreeMore(a.parentOf, b.parentOf, c.parentOf, one, Members(PreOrder(t.kids)));
    MapsAgreeMore(a.siblingIndex, b.siblingIndex, c.siblingIndex, one, Members(PreOrder(t.kids)));
  }

  lemma NothingVisited(s: Snap, a: Numbering, n: Node)
    ensures PreOrder([]) == [] && Shaped(s, []) && Records(s, a, []) && Adopted(a.parentOf, [], n)
    ensures forall T :: SameElsewhere(a, a, T)
  {
  }

  lemma OneShape(t: Shape)
    ensures PreOrder([t]) == [t.node] + PreOrder(t.kids)
  {
    assert [t][1..] == [];
  }

  /** A visited tree is its top and what lies below it. */
  lemma VisitParts(s: Snap, t: Shape)
    requires Shaped(s, [t]) && NoDup(PreOrder([t]))
    ensures PreOrder([t]) == [t.node] + PreOrder(t.kids)
    ensures Members(PreOrder([t])) == {t.node} + Members(PreOrder(t.kids))
    ensures t.node in s && KidsOf(s, t.node) == Heads(t.kids) && Shaped(s, t.kids)
    ensures NoDup(PreOrder(t.kids)) && t.node !in Members(PreOrder(t.kids))
    ensures NoDup(Heads(t.kids)) && Members(Heads(t.kids)) <= Members(PreOrder(t.kids))
  {
    OneShape(t);
    NoDupParts([t.node], PreOrder(t.kids));
    HeadsNoDup(t.kids);
    assert t.node in [t.node];
  }

  lemma {:induction false} HeadsNoDup(ts: seq<Shape>)
    requires NoDup(PreOrder(ts))
    ensures NoDup(Heads(ts)) && Members(Heads(ts)) <= Members(PreOrder(ts))
  {
    if ts != [] {
      var n, top, rest := ts[0].node, [ts[0].node] + PreOrder(ts[0].kids), PreOrder(ts[1..]);
      assert PreOrder(ts) == top + rest && top[0] == n;
      NoDupParts(top, rest);
      HeadsNoDup(ts[1..]);
      assert Heads(ts) == [n] + Heads(ts[1..]);
      hide NoDup, PreOrder, Heads;
      assert n in top && n !in Members(rest);
      NoDupCons(n, Heads(ts[1..]));
      assert Members([n] + Heads(ts[1..])) == {n} + Members(Heads(ts[1..]));
      assert Members(top + rest) == Members(top) + Members(rest);
    }
  }

  lemma AgreeOnMore<V>(p: map<Node, V>, p': map<Node, V>, T: set<Node>, U: set<Node>)
    requires p' - T == p - T && T <= U
    ensures p' - U == p - U
  {
    MapsAgreeMore(p, p, p', T, U);
  }

  lemma LinkedTop(s: Snap, p: map<Node, Node?>, q: map<Node, nat>, n: Node, below: set<Node>)
    requires Linked(s, p, q, below)
    requires Placed(q, KidsOf(s, n)) && Adopted(p, KidsOf(s, n), n)
    ensures Linked(s, p, q, {n} + below)
  {
  }

  /** The k-th child is visited after the ones before it. */
  lemma KidParts(s: Snap, ts: seq<Shape>, k: nat)
    requires k < |ts| && Shaped(s, ts) && NoDup(PreOrder(ts)) && Shaped(s, ts[..k])
    ensures Heads(ts)[k] == ts[k].node && Shaped(s, [ts[k]]) && NoDup(PreOrder([ts[k]])) && Shaped(s, ts[..k + 1])
    ensures PreOrder(ts[..k + 1]) == PreOrder(ts[..k]) + PreOrder([ts[k]])
    ensures Members(PreOrder(ts[..k + 1])) == Members(PreOrder(ts[..k])) + Members(PreOrder([ts[k]]))
    ensures Members(PreOrder([ts[k]])) <= Members(PreOrder(ts))
    ensures Members(PreOrder(ts[..k])) !! Members(PreOrder([ts[k]]))
  {
    hide PreOrder, NoDup, Shaped, Heads;
    HeadsAt(ts, k);
    ShapedAt(s, ts, k);
    assert ts[..k + 1] == ts[..k] + [ts[k]];
    PreOrderConcat(ts[..k], [ts[k]]);
    assert ts == ts[..k + 1] + ts[k + 1..];
    PreOrderConcat(ts[..k + 1], ts[k + 1..]);
    NoDupParts(PreOrder(ts[..k + 1]), PreOrder(ts[k + 1..]));
    NoDupParts(PreOrder(ts[..k]), PreOrder([ts[k]]));
    ShapedConcat(s, ts[..k], [ts[k]]);
  }

  lemma {:induction false} ShapedConcat(s: Snap, a: seq<Shape>, b: seq<Shape>)
    requires Shaped(s, a) && Shaped(s, b)
    ensures Shaped(s, a + b)
  {
    if a == [] {
      assert a + b == b;
    } else {
      assert (a + b)[1..] == a[1..] + b;
      ShapedConcat(s, a[1..], b);
    }
  }

  /** No other child lies in the k-th child's subtree, nor the k-th child below itself. */
  lemma KidsApart(ts: seq<Shape>, k: nat)
    requires k < |ts| && NoDup(PreOrder(ts))
    ensures Members(PreOrder(ts[k].kids)) <= Members(PreOrder([ts[k]]))
    ensures forall i :: 0 <= i < k ==> Heads(ts)[i] !in Members(PreOrder([ts[k]]))
    ensures forall i :: 0 <= i < |ts| ==> Heads(ts)[i] !in Members(PreOrder(ts[k].kids))
  {
    OneShape(ts[k]);
    forall i | 0 <= i < |ts|
      ensures i != k ==> Heads(ts)[i] !in Members(PreOrder([ts[k]]))
      ensures Heads(ts)[i] !in Members(PreOrder(ts[k].kids))
    {
      HeadsAt(ts, i);
      KidApart(ts, i, k);
    }
  }

  lemma {:induction false} KidApart(ts: seq<Shape>, i: nat, k: nat)
    requires i < |ts| && k < |ts| && NoDup(PreOrder(ts))
    ensures i != k ==> ts[i].node !in PreOrder([ts[k]])
    ensures ts[i].node !in PreOrder(ts[k].kids)
  {
    var t, rest := ts[0], ts[1..];
    assert PreOrder(ts) == [t.node] + PreOrder(t.kids) + PreOrder(rest);
    NoDupParts([t.node] + PreOrder(t.kids), PreOrder(rest));
    NoDupParts([t.node], PreOrder(t.kids));
    OneShape(t);
    assert t.node in [t.node];
    if i > 0 && k > 0 {
      KidApart(rest, i - 1, k - 1);
    } else if i > 0 {
      HeadInPreOrder(rest, i - 1);
    } else if k > 0 {
      InWhole(rest, k - 1);
    }
  }

  lemma {:induction false} InWhole(ts: seq<Shape>, k: nat)
    requires k < |ts|
    ensures forall n :: n in PreOrder([ts[k]]) ==> n in PreOrder(ts)
    ensures forall n :: n in PreOrder(ts[k].kids) ==> n in PreOrder([ts[k]])
  {
    OneShape(ts[k]);
    if k > 0 {
      InWhole(ts[1..], k - 1);
    }
  }

  // --- from positions to offsets ----------------------------------------------------------------

  predicate Positions(order: seq<Node>, indexOf: map<Node, nat>) {
    forall i :: 0 <= i < |order| ==> order[i] in indexOf && indexOf[order[i]] == i
  }

  method NumberNodes(order: seq<Node>) returns (indexOf: map<Node, nat>)
    requires NoDup(order)
    ensures Positions(order, indexOf)
  {
    indexOf := map[];
    var i := 0;
    while i < |order|
      invariant 0 <= i <= |order|
      invariant Positions(order[..i], indexOf)
    {
      indexOf := indexOf[order[i] := i];
      i := i + 1;
    }
    assert order[..|order|] == order;
  }

  /** How far x's position lies from i. */
  function Delta(indexOf: map<Node, nat>, x: Node, i: nat): int64 {
    if x in indexOf && indexOf[x] <= MAX_INT64 && i <= MAX_INT64 then indexOf[x] - i else 0
  }

  /** The wire node for position i: first child and next sibling by way of the maps. */
  function Entry(s: Snap, a: Numbering, indexOf: map<Node, nat>, i: nat): WireNode
    requires i < |a.order|
  {
    var n := a.order[i];
    var kids := KidsOf(s, n);
    var parent := if n in a.parentOf then a.parentOf[n] else null;
    var first := if kids != [] then Delta(indexOf, kids[0], i) else 0;
    WireNode(n.key, ValueOf(s, n), OffsetPointer(first), OffsetPointer(NextDelta(s, a, indexOf, n, parent, i)))
  }

  function NextDelta(s: Snap, a: Numbering, indexOf: map<Node, nat>, n: Node, parent: Node?, i: nat): int64 {
    if parent != null && n in a.siblingIndex && a.siblingIndex[n] + 1 < |KidsOf(s, parent)| then
      Delta(indexOf, KidsOf(s, parent)[a.siblingIndex[n] + 1], i)
    else 0
  }

  /** ts are the children of parent from pos on, or the tree that the visit began with. */
  ghost predicate Siblings(s: Snap, a: Numbering, ts: seq<Shape>, parent: Node?, pos: nat) {
    if parent == null then |ts| <= 1 && (ts != [] ==> ts[0].node in a.parentOf && a.parentOf[ts[0].node] == null)
    else
      && pos <= |KidsOf(s, parent)| && KidsOf(s, parent)[pos..] == Heads(ts)
      && forall k :: 0 <= k < |ts| ==>
           var c := Heads(ts)[k]; c in a.parentOf && a.parentOf[c] == parent && c in a.siblingIndex && a.siblingIndex[c] == pos + k
  }

  lemma SiblingsRest(s: Snap, a: Numbering, ts: seq<Shape>, parent: Node?, pos: nat)
    requires Siblings(s, a, ts, parent, pos) && ts != []
    ensures Siblings(s, a, ts[1..], parent, pos + 1)
  {
    if parent != null {
      assert Heads(ts)[1..] == Heads(ts[1..]);
      assert KidsOf(s, parent)[pos..][1..] == KidsOf(s, parent)[pos + 1..];
      assert forall k :: 0 <= k < |ts[1..]| ==> Heads(ts[1..])[k] == Heads(ts)[k + 1];
    }
  }

  lemma SiblingsBelow(s: Snap, a: Numbering, ts: seq<Shape>)
    requires ts != [] && Shaped(s, ts) && Linked(s, a.parentOf, a.siblingIndex, Members(PreOrder(ts)))
    ensures Siblings(s, a, ts[0].kids, ts[0].node, 0)
    ensures Linked(s, a.parentOf, a.siblingIndex, Members(PreOrder(ts[0].kids)))
    ensures Linked(s, a.parentOf, a.siblingIndex, Members(PreOrder(ts[1..])))
  {
    hide Heads;
    var n := ts[0].node;
    HeadInPreOrder(ts, 0);
    assert KidsOf(s, n)[0..] == Heads(ts[0].kids);
    LinkedSubset(s, a, Members(PreOrder(ts)), Members(PreOrder(ts[0].kids)));
    LinkedSubset(s, a, Members(PreOrder(ts)), Members(PreOrder(ts[1..])));
  }

  lemma LinkedSubset(s: Snap, a: Numbering, S: set<Node>, T: set<Node>)
    requires Linked(s, a.parentOf, a.siblingIndex, S) && T <= S
    ensures Linked(s, a.parentOf, a.siblingIndex, T)
  {
  }

  /** What the first entry of a block holds. */
  lemma HeadEntry(s: Snap, a: Numbering, indexOf: map<Node, nat>, ts: seq<Shape>, at: nat, parent: Node?, pos: nat)
    requires ts != [] && Shaped(s, ts) && Siblings(s, a, ts, parent, pos) && Positions(a.order, indexOf) && |a.order| <= MAX_INT64
    requires at + |PreOrder(ts)| <= |a.order| && a.order[at..at + |PreOrder(ts)|] == PreOrder(ts)
    ensures var below := |PreOrder(ts[0].kids)|;
            Entry(s, a, indexOf, at)
            == WireNode(ts[0].node.key, ValueOf(s, ts[0].node),
                        OffsetPointer(if ts[0].kids == [] then 0 else 1),
                        OffsetPointer(if |ts| == 1 then 0 else 1 + below))
  {
    var n, block, below := ts[0].node, PreOrder(ts), PreOrder(ts[0].kids);
    assert block == [n] + below + PreOrder(ts[1..]);
    assert a.order[at] == block[0] == n;
    if ts[0].kids != [] {
      assert a.order[at + 1] == block[1] == below[0] == ts[0].kids[0].node;
    }
    if |ts| > 1 {
      assert PreOrder(ts[1..])[0] == ts[1].node == Heads(ts)[1];
      assert a.order[at + 1 + |below|] == block[1 + |below|] == ts[1].node;
    }
    if parent != null {
      assert Heads(ts)[0] == n && KidsOf(s, parent)[pos..][0] == n;
      if |ts| > 1 {
        assert KidsOf(s, parent)[pos + 1] == KidsOf(s, parent)[pos..][1];
      }
    }
  }

  lemma RosesParts(s: Snap, ts: seq<Shape>)
    requires ts != [] && Shaped(s, ts)
    ensures PreOrder(ts) == [ts[0].node] + PreOrder(ts[0].kids) + PreOrder(ts[1..])
    ensures Shaped(s, ts[0].kids) && Shaped(s, ts[1..])
    ensures Roses(s, ts) == [Rose(ts[0].node.key, ValueOf(s, ts[0].node), Roses(s, ts[0].kids))] + Roses(s, ts[1..])
  {
  }

  /** A block's parts: its first tree's top, that tree's children, and the other trees. */
  lemma BlockSplit(s: Snap, ts: seq<Shape>)
    requires ts != [] && Shaped(s, ts) && |PreOrder(ts)| <= MAX_INT64
    ensures PreOrder(ts) == [ts[0].node] + PreOrder(ts[0].kids) + PreOrder(ts[1..])
    ensures Shaped(s, ts[0].kids) && Shaped(s, ts[1..])
    ensures var rs, kids, rest := Roses(s, ts), Roses(s, ts[0].kids), Roses(s, ts[1..]);
            && Size(rs) == |PreOrder(ts)| && Size(kids) == |PreOrder(ts[0].kids)| && Size(rest) == |PreOrder(ts[1..])|
            && Flat(rs) == [WireNode(ts[0].node.key, ValueOf(s, ts[0].node),
                                     OffsetPointer(if ts[0].kids == [] then 0 else 1),
                                     OffsetPointer(if |ts| == 1 then 0 else 1 + |PreOrder(ts[0].kids)|))]
                           + Flat(kids) + Flat(rest)
  {
    hide Flat, Size, Roses, PreOrder, Shaped, ValueOf;
    RosesParts(s, ts);
    var rs := Roses(s, ts);
    assert rs[1..] == Roses(s, ts[1..]) && rs[0].kids == Roses(s, ts[0].kids);
    FlatHead(rs);
  }

  /** The entries of a block are the array of its forest. */
  lemma {:induction false} BlockIsFlat(s: Snap, a: Numbering, indexOf: map<Node, nat>, ts: seq<Shape>, at: nat,
                                       parent: Node?, pos: nat, j: nat)
    requires Shaped(s, ts) && Siblings(s, a, ts, parent, pos) && Positions(a.order, indexOf) && |a.order| <= MAX_INT64
    requires at + |PreOrder(ts)| <= |a.order| && a.order[at..at + |PreOrder(ts)|] == PreOrder(ts)
    requires Linked(s, a.parentOf, a.siblingIndex, Members(PreOrder(ts)))
    requires j < |PreOrder(ts)|
    ensures Entry(s, a, indexOf, at + j) == Flat(Roses(s, ts))[j]
    decreases ts
  {
    hide Entry, Siblings, Linked, Positions, Flat, Roses, Shaped, PreOrder, Size, Members, ValueOf;
    NotEmpty(ts);
    BlockSplit(s, ts);
    var kids, rest := ts[0].kids, ts[1..];
    var below := |PreOrder(kids)|;
    if j == 0 {
      HeadEntry(s, a, indexOf, ts, at, parent, pos);
    } else if j < 1 + below {
      SiblingsBelow(s, a, ts);
      SubBlock(a.order, at, PreOrder(ts), 1, 1 + below);
      BlockIsFlat(s, a, indexOf, kids, at + 1, ts[0].node, 0, j - 1);
    } else {
      SiblingsBelow(s, a, ts);
      SiblingsRest(s, a, ts, parent, pos);
      SubBlock(a.order, at, PreOrder(ts), 1 + below, |PreOrder(ts)|);
      BlockIsFlat(s, a, indexOf, rest, at + 1 + below, parent, pos + 1, j - 1 - below);
    }
  }

  lemma NotEmpty(ts: seq<Shape>)
    ensures PreOrder(ts) != [] ==> ts != []
  {
  }

  lemma SubBlock(order: seq<Node>, at: nat, block: seq<Node>, lo: nat, hi: nat)
    requires at + |block| <= |order| && order[at..at + |block|] == block && lo <= hi <= |block|
    ensures order[at + lo..at + hi] == block[lo..hi]
  {
    SubSlice(order, at, |block|, lo, hi);
  }

  /** A visited node is the top, or stands in the list of a visited node. */
  lemma {:induction false} TopOrChild(s: Snap, ts: seq<Shape>, n: Node) returns (m: Node?, i: nat)
    requires Shaped(s, ts) && n in PreOrder(ts)
    ensures if m == null then n in Heads(ts) else m in PreOrder(ts) && i < |KidsOf(s, m)| && KidsOf(s, m)[i] == n
    decreases ts
  {
    m, i := null, 0;
    var t := ts[0];
    if n == t.node {
      assert Heads(ts)[0] == n;
    } else if n in PreOrder(t.kids) {
      m, i := TopOrChild(s, t.kids, n);
      if m == null {
        m := t.node;
        i :| 0 <= i < |Heads(t.kids)| && Heads(t.kids)[i] == n;
      }
    } else {
      m, i := TopOrChild(s, ts[1..], n);
    }
  }

  /** Every map lookup that position i needs finds something. */
  ghost predicate Mapped(s: Snap, a: Numbering, indexOf: map<Node, nat>, i: nat) {
    && i < |a.order| <= MAX_INT64
    && a.order[i] in s && a.order[i] in a.parentOf && Indexed(indexOf, KidsOf(s, a.order[i]))
    && (a.parentOf[a.order[i]] != null ==>
          && a.parentOf[a.order[i]] in s && a.order[i] in a.siblingIndex
          && Indexed(indexOf, KidsOf(s, a.parentOf[a.order[i]])))
  }

  ghost predicate Indexed(indexOf: map<Node, nat>, ns: seq<Node>) {
    forall k :: 0 <= k < |ns| ==> ns[k] in indexOf && indexOf[ns[k]] <= MAX_INT64
  }

  lemma KidsIndexed(s: Snap, ts: seq<Shape>, indexOf: map<Node, nat>, m: Node)
    requires Shaped(s, ts) && Positions(PreOrder(ts), indexOf) && |PreOrder(ts)| <= MAX_INT64 && m in PreOrder(ts)
    ensures Indexed(indexOf, KidsOf(s, m))
  {
    hide PreOrder, Shaped;
    forall k | 0 <= k < |KidsOf(s, m)|
      ensures KidsOf(s, m)[k] in indexOf && indexOf[KidsOf(s, m)[k]] <= MAX_INT64
    {
      ChildrenInside(s, ts, m, k);
      var p :| 0 <= p < |PreOrder(ts)| && PreOrder(ts)[p] == KidsOf(s, m)[k];
    }
  }

  lemma {:induction false} ShapedInside(s: Snap, ts: seq<Shape>, n: Node)
    requires Shaped(s, ts) && n in PreOrder(ts)
    ensures n in s
    decreases ts
  {
    var t := ts[0];
    if n != t.node {
      if n in PreOrder(t.kids) {
        ShapedInside(s, t.kids, n);
      } else {
        ShapedInside(s, ts[1..], n);
      }
    }
  }

  lemma AllMapped(s: Snap, a: Numbering, indexOf: map<Node, nat>, t: Shape, i: nat)
    requires Shaped(s, [t]) && Records(s, a, [t]) && a.order == PreOrder([t]) && |a.order| <= MAX_INT64
    requires Positions(a.order, indexOf) && t.node in a.parentOf && a.parentOf[t.node] == null && i < |a.order|
    ensures Mapped(s, a, indexOf, i)
  {
    hide PreOrder, Shaped, Positions, Indexed;
    var n := a.order[i];
    assert n in PreOrder([t]);
    ShapedInside(s, [t], n);
    KidsIndexed(s, [t], indexOf, n);
    var m, k := TopOrChild(s, [t], n);
    if m == null {
      assert Heads([t]) == [t.node];
    } else {
      assert m in Members(PreOrder([t]));
      ShapedInside(s, [t], m);
      KidsIndexed(s, [t], indexOf, m);
    }
  }

  method WireEntry(a: Numbering, indexOf: map<Node, nat>, i: nat, ghost s: Snap) returns (w: WireNode)
    requires Mirrors(s) && Mapped(s, a, indexOf, i)
    ensures w == Entry(s, a, indexOf, i)
  {
    var n := a.order[i];
    var first, next := 0, 0;
    if |n.children| > 0 {
      first := indexOf[n.children[0]] - i;
    }
    var parent := a.parentOf[n];
    if parent != null {
      var pos := a.siblingIndex[n];
      if pos + 1 < |parent.children| {
        next := indexOf[parent.children[pos + 1]] - i;
      }
    }
    return WireNode(n.key, n.value, OffsetPointer(first), OffsetPointer(next));
  }

  lemma EntriesAreFlat(s: Snap, a: Numbering, indexOf: map<Node, nat>, t: Shape, flat: seq<WireNode>)
    requires Shaped(s, [t]) && Records(s, a, [t]) && a.order == PreOrder([t]) && |a.order| <= MAX_INT64
    requires Positions(a.order, indexOf) && t.node in a.parentOf && a.parentOf[t.node] == null
    requires |flat| == |a.order| && forall k :: 0 <= k < |flat| ==> flat[k] == Entry(s, a, indexOf, k)
    ensures flat == Flat(Roses(s, [t]))
  {
    hide PreOrder, Shaped, Positions, Linked, Entry, Flat, Roses, Heads;
    assert Siblings(s, a, [t], null, 0);
    assert a.order[0..0 + |PreOrder([t])|] == PreOrder([t]);
    forall k | 0 <= k < |flat|
      ensures flat[k] == Flat(Roses(s, [t]))[k]
    {
      BlockIsFlat(s, a, indexOf, [t], 0, null, 0, k);
    }
  }

  /** flattenSubtree: visit, number, and look every offset up. */
  method FlattenSubtree(root: Node, ghost s: Snap, ghost t: Shape) returns (flat: seq<WireNode>)
    requires Mirrors(s) && t.node == root && Shaped(s, [t]) && NoDup(PreOrder([t])) && |PreOrder([t])| <= MAX_INT64
    ensures flat == Flat(Roses(s, [t]))
  {
    hide PreOrder, Shaped, Linked, NoDup, Heads, Members, SameElsewhere, Records, Entry, Positions, Roses, Flat, Mapped;
    var a := Visit(root, null, Numbering([], map[], map[]), s, t);
    assert a.order == PreOrder([t]);
    var indexOf := NumberNodes(a.order);
    flat := [];
    var i := 0;
    while i < |a.order|
      invariant 0 <= i <= |a.order|
      invariant |flat| == i && forall k :: 0 <= k < i ==> flat[k] == Entry(s, a, indexOf, k)
    {
      AllMapped(s, a, indexOf, t, i);
      var w := WireEntry(a, indexOf, i, s);
      flat := flat + [w];
      i := i + 1;
    }
    EntriesAreFlat(s, a, indexOf, t, flat);
  }

  // --- chaining several matches ----------------------------------------------------------------------

  function WithNext(n: WireNode, delta: int64): WireNode {
    n.(nextSibling := OffsetPointer(delta))
  }

  /** A tree's own array, with its top's next sibling set. */
  function Block(t: Rose, next: int64): (flat: seq<WireNode>)
    requires Size([t]) <= MAX_INT64
    ensures |flat| == Size([t])
  {
    var flat := Flat([t]);
    [WithNext(flat[0], next)] + flat[1..]
  }

  /** The forest's array with only its first i blocks chained to the next. */
  function Chained(ts: seq<Rose>, i: nat): (flat: seq<WireNode>)
    requires Size(ts) <= MAX_INT64
    ensures |flat| == Size(ts)
  {
    if ts == [] then []
    else
      SizeParts(ts);
      Block(ts[0], if i > 0 && |ts| > 1 then Size([ts[0]]) else 0) + Chained(ts[1..], if i > 0 then i - 1 else 0)
  }

  lemma SizeParts(ts: seq<Rose>)
    requires ts != []
    ensures Size(ts) == Size([ts[0]]) + Size(ts[1..]) && Size([ts[0]]) > 0
  {
    assert [ts[0]][1..] == [];
  }

  lemma BlockParts(t: Rose, next: int64)
    requires Size([t]) <= MAX_INT64
    ensures Size([t]) == 1 + Size(t.kids)
    ensures Block(t, next)
         == [WireNode(t.key, t.value, OffsetPointer(if Size(t.kids) == 0 then 0 else 1), OffsetPointer(next))] + Flat(t.kids)
  {
    hide Flat, Size;
    FlatHead([t]);
    NothingFlat([t][1..]);
    assert Flat([t])[1..] == Flat(t.kids);
  }

  lemma FlatBlocks(ts: seq<Rose>)
    requires ts != [] && Size(ts) <= MAX_INT64
    ensures Size(ts) == Size([ts[0]]) + Size(ts[1..])
    ensures Flat(ts) == Block(ts[0], if |ts| > 1 then Size([ts[0]]) else 0) + Flat(ts[1..])
  {
    hide Flat, Size, Block;
    SizeParts(ts);
    FlatHead(ts);
    BlockParts(ts[0], if |ts| > 1 then Size([ts[0]]) else 0);
  }

  lemma NothingFlat(ts: seq<Rose>)
    requires ts == []
    ensures Size(ts) == 0 && Flat(ts) == []
  {
  }

  lemma BlockAlone(t: Rose)
    requires Size([t]) <= MAX_INT64
    ensures Block(t, 0) == Flat([t])
  {
    hide Flat, Size;
    FlatHead([t]);
  }

  lemma {:induction false} ChainedIsFlat(ts: seq<Rose>, i: nat)
    requires Size(ts) <= MAX_INT64 && i + 1 >= |ts|
    ensures Chained(ts, i) == Flat(ts)
  {
    if ts == [] {
      NothingFlat(ts);
    } else {
      hide Flat, Size, Block;
      FlatBlocks(ts);
      ChainedIsFlat(ts[1..], if i > 0 then i - 1 else 0);
    }
  }

  /** Where each block starts. */
  function Starts(ts: seq<Rose>, at: nat): seq<nat> {
    if ts == [] then [] else [at] + Starts(ts[1..], at + Size([ts[0]]))
  }

  lemma {:induction false} StartsSnoc(ts: seq<Rose>, t: Rose, at: nat)
    ensures Starts(ts + [t], at) == Starts(ts, at) + [at + Size(ts)]
    ensures Size(ts + [t]) == Size(ts) + Size([t])
  {
    if ts != [] {
      assert (ts + [t])[1..] == ts[1..] + [t];
      StartsSnoc(ts[1..], t, at + Size([ts[0]]));
      assert [ts[0]][1..] == [];
    } else {
      assert [t][1..] == [];
    }
  }

  lemma {:induction false} BlocksSnoc(ts: seq<Rose>, t: Rose)
    requires Size(ts + [t]) <= MAX_INT64 && Size(ts) + Size([t]) <= MAX_INT64
    ensures Chained(ts + [t], 0) == Chained(ts, 0) + Flat([t])
  {
    hide Flat, Size, Block;
    if ts == [] {
      assert [] + [t] == [t] && [t][1..] == [];
      BlockAlone(t);
    } else {
      assert (ts + [t])[1..] == ts[1..] + [t];
      SizeParts(ts);
      SizeParts(ts + [t]);
      BlocksSnoc(ts[1..], t);
    }
  }

  lemma StartsStep(ts: seq<Rose>, at: nat, i: nat)
    requires i + 1 < |ts|
    ensures |Starts(ts, at)| == |ts| && |Starts(ts[1..], at + Size([ts[0]]))| == |ts[1..]|
    ensures Starts(ts, at)[0] == at && Starts(ts, at)[i + 1] == Starts(ts[1..], at + Size([ts[0]]))[i]
  {
    hide Size;
    StartsLength(ts, at);
    StartsLength(ts[1..], at + Size([ts[0]]));
  }

  /** Where block i starts, and where the next one does. */
  lemma {:induction false} StartsBounds(ts: seq<Rose>, at: nat, i: nat)
    requires i + 1 < |ts|
    ensures |Starts(ts, at)| == |ts| && at <= Starts(ts, at)[i] < Starts(ts, at)[i + 1] < at + Size(ts)
  {
    hide Starts, Size;
    SizeParts(ts);
    SizeParts(ts[1..]);
    StartsStep(ts, at, i);
    if i > 0 {
      StartsStep(ts, at, i - 1);
      StartsBounds(ts[1..], at + Size([ts[0]]), i - 1);
    } else {
      StartsLength(ts[1..], at + Size([ts[0]]));
    }
  }

  lemma ChainedStep(ts: seq<Rose>, i: nat)
    requires Size(ts) <= MAX_INT64 && 0 < i && 1 < |ts|
    ensures Size([ts[0]]) > 0 && Size(ts) == Size([ts[0]]) + Size(ts[1..])
    ensures Chained(ts, i) == Block(ts[0], Size([ts[0]])) + Chained(ts[1..], i - 1)
  {
    hide Size, Block;
    SizeParts(ts);
  }

  /** Chaining one more block sets one pointer. */
  lemma {:induction false} ChainOneMore(ts: seq<Rose>, i: nat, at: nat)
    requires Size(ts) <= MAX_INT64 && i + 1 < |ts|
    ensures |Starts(ts, at)| == |ts|
    ensures var lo, hi := Starts(ts, at)[i], Starts(ts, at)[i + 1];
            && at <= lo < hi < at + Size(ts)
            && Chained(ts, i + 1) == Chained(ts, i)[lo - at := WithNext(Chained(ts, i)[lo - at], hi - lo)]
  {
    hide Size, Block, WithNext, Starts, Chained;
    var rest, size := ts[1..], Size([ts[0]]);
    StartsBounds(ts, at, i);
    StartsStep(ts, at, i);
    if i == 0 {
      FirstChained(ts);
      StartsLength(rest, at + size);
    } else {
      ChainedStep(ts, i);
      ChainedStep(ts, i + 1);
      StartsStep(ts, at, i - 1);
      ChainOneMore(rest, i - 1, at + size);
      var lo := Starts(rest, at + size)[i - 1] - at;
      UpdateBehind(Block(ts[0], size), Chained(rest, i - 1), lo - size, Chained(rest, i)[lo - size]);
    }
  }

  lemma FirstChained(ts: seq<Rose>)
    requires Size(ts) <= MAX_INT64 && |ts| > 1
    ensures Size([ts[0]]) > 0 && Size(ts) == Size([ts[0]]) + Size(ts[1..])
    ensures Chained(ts, 1) == Chained(ts, 0)[0 := WithNext(Chained(ts, 0)[0], Size([ts[0]]))]
  {
    hide Flat, Size;
    SizeParts(ts);
  }

  lemma UpdateBehind(head: seq<WireNode>, tail: seq<WireNode>, k: nat, w: WireNode)
    requires k < |tail|
    ensures (head + tail)[|head| + k] == tail[k]
    ensures (head + tail)[|head| + k := w] == head + tail[k := w]
  {
  }

  lemma {:induction false} StartsLength(ts: seq<Rose>, at: nat)
    ensures |Starts(ts, at)| == |ts|
    ensures ts != [] ==> Starts(ts, at)[0] == at
  {
    if ts != [] {
      StartsLength(ts[1..], at + Size([ts[0]]));
    }
  }

  lemma RosesStep(s: Snap, ts: seq<Shape>)
    requires ts != []
    ensures Roses(s, ts) == [Rose(ts[0].node.key, ValueOf(s, ts[0].node), Roses(s, ts[0].kids))] + Roses(s, ts[1..])
  {
  }

  lemma {:induction false} RosesConcat(s: Snap, a: seq<Shape>, b: seq<Shape>)
    ensures Roses(s, a + b) == Roses(s, a) + Roses(s, b)
  {
    hide ValueOf, PreOrder, Size;
    if a == [] {
      assert a + b == b;
    } else {
      assert (a + b)[1..] == a[1..] + b;
      RosesStep(s, a);
      RosesStep(s, a + b);
      RosesConcat(s, a[1..], b);
    }
  }

  lemma {:induction false} HeadsConcat(a: seq<Shape>, b: seq<Shape>)
    ensures Heads(a + b) == Heads(a) + Heads(b)
  {
    if a == [] {
      assert a + b == b;
    } else {
      assert (a + b)[1..] == a[1..] + b;
      HeadsConcat(a[1..], b);
    }
  }

  lemma {:induction false} SizeOfPart(a: seq<Rose>, b: seq<Rose>)
    ensures Size(a + b) == Size(a) + Size(b)
  {
    if a == [] {
      assert a + b == b;
    } else {
      assert (a + b)[1..] == a[1..] + b;
      SizeOfPart(a[1..], b);
    }
  }

  /** Every shape may be visited on its own: no node occurs twice in it. */
  ghost predicate Separate(ts: seq<Shape>) {
    forall i :: 0 <= i < |ts| ==> NoDup(PreOrder([ts[i]]))
  }

  /** FlattenMatches: each match's subtree, then a second pass that chains their tops. */
  method FlattenMatches(matches: seq<Node>, ghost s: Snap, ghost shapes: seq<Shape>) returns (out: seq<WireNode>)
    requires Mirrors(s) && Heads(shapes) == matches && Shaped(s, shapes) && Separate(shapes)
    requires Size(Roses(s, shapes)) <= MAX_INT64
    ensures out == Flat(Roses(s, shapes))
  {
    hide Flat, Size, Roses, Shaped, Mirrors, Heads, NoDup, PreOrder, Chained, Starts, WithNext;
    ghost var rs := Roses(s, shapes);
    out := [];
    var starts: seq<nat> := [];
    NoBlocks(s);
    var i := 0;
    while i < |matches|
      invariant 0 <= i <= |matches|
      invariant Size(Roses(s, shapes[..i])) <= MAX_INT64 && |out| == Size(Roses(s, shapes[..i]))
      invariant out == Chained(Roses(s, shapes[..i]), 0) && starts == Starts(Roses(s, shapes[..i]), 0)
    {
      OneMoreBlock(s, shapes, i);
      starts := starts + [|out|];
      var block := FlattenSubtree(matches[i], s, shapes[i]);
      out := out + block;
      i := i + 1;
    }
    assert shapes[..|shapes|] == shapes;
    StartsLength(rs, 0);
    i := 0;
    while i < |starts| - 1
      invariant 0 <= i && (i < |starts| || i == 0)
      invariant out == Chained(rs, i)
    {
      ChainOneMore(rs, i, 0);
      assert out[starts[i]].(nextSibling := OffsetPointer(starts[i + 1] - starts[i])) == WithNext(out[starts[i]], starts[i + 1] - starts[i]) by {
        NextSet(out[starts[i]], starts[i + 1] - starts[i]);
      }
      out := out[starts[i] := out[starts[i]].(nextSibling := OffsetPointer(starts[i + 1] - starts[i]))];
      i := i + 1;
    }
    ChainedIsFlat(rs, i);
  }

  lemma NextSet(n: WireNode, delta: int64)
    ensures n.(nextSibling := OffsetPointer(delta)) == WithNext(n, delta)
  {
  }

  lemma NoBlocks(s: Snap)
    ensures Roses(s, []) == [] && Size(Roses(s, [])) == 0 && Chained(Roses(s, []), 0) == [] && Starts(Roses(s, []), 0) == []
  {
  }

  lemma OneMoreBlock(s: Snap, shapes: seq<Shape>, i: nat)
    requires i < |shapes| && Shaped(s, shapes) && Separate(shapes) && Size(Roses(s, shapes)) <= MAX_INT64
    ensures Heads(shapes)[i] == shapes[i].node && Shaped(s, [shapes[i]]) && NoDup(PreOrder([shapes[i]]))
    ensures |PreOrder([shapes[i]])| <= MAX_INT64
    ensures var before, after, one := Roses(s, shapes[..i]), Roses(s, shapes[..i + 1]), Roses(s, [shapes[i]]);
            && Size(after) == Size(before) + |PreOrder([shapes[i]])| && Size(after) <= MAX_INT64
            && Size(one) <= MAX_INT64
            && Chained(after, 0) == Chained(before, 0) + Flat(one)
            && Starts(after, 0) == Starts(before, 0) + [Size(before)]
  {
    hide Flat, Size, Roses, Shaped, Heads, NoDup, PreOrder, Chained, Starts;
    HeadsAt(shapes, i);
    ShapedAt(s, shapes, i);
    var before, one := Roses(s, shapes[..i]), Roses(s, [shapes[i]]);
    assert shapes[..i + 1] == shapes[..i] + [shapes[i]] && shapes == shapes[..i + 1] + shapes[i + 1..];
    RosesConcat(s, shapes[..i], [shapes[i]]);
    RosesConcat(s, shapes[..i + 1], shapes[i + 1..]);
    SizeOfPart(Roses(s, shapes[..i + 1]), Roses(s, shapes[i + 1..]));
    SizeOfPart(before, one);
    assert one == [one[0]];
    StartsSnoc(before, one[0], 0);
    BlocksSnoc(before, one[0]);
  }
}
