/**
 * Get as the code runs it on the heap: evaluation, the pruned copy of what the caller
 * may read, and flattening; proved against TreeRead.GetFull.
 */
module TreeGetMethods {
  import opened Basics
  import opened WireTypes
  import opened Expression
  import opened Authz
  import opened Flatten
  import opened TreeState
  import opened TreeRead
  import opened TreeSet
  import opened TreeSetSafety
  import opened TreeGrow
  import opened TreeHeap
  import opened TreeFlatten
  import opened TreeGrowMethods

  // --- live nodes as shapes ----------------------------------------------------------------

  ghost function ShapeOf(s: Snap, root: Node, n: Node): Shape
    requires Inv(s, root) && n in s
    decreases Subtree(s, n), 1, 0
  {
    Shape(n, ShapesOf(s, root, n, s[n].children))
  }

  ghost function ShapesOf(s: Snap, root: Node, n: Node, kids: seq<Node>): seq<Shape>
    requires Inv(s, root) && n in s && forall c :: c in kids ==> c in s[n].children
    decreases Subtree(s, n), 0, |kids|
  {
    if kids == [] then []
    else
      var k := |kids| - 1;
      assert kids[k] in kids;
      SubtreeShrinks(s, root, n, kids[k]);
      ShapesOf(s, root, n, kids[..k]) + [ShapeOf(s, root, kids[k])]
  }

  /** A node's shape is the heap's, and reads as the view that leaves nothing out. */
  lemma {:induction false} ShapeFits(s: Snap, root: Node, n: Node)
    requires Inv(s, root) && n in s
    ensures var t := ShapeOf(s, root, n); t.node == n && Shaped(s, [t]) && Roses(s, [t]) == [View(s, root, None, n)]
    decreases Subtree(s, n), 1, 0
  {
    hide Inv, Subtree;
    ShapesFit(s, root, n, s[n].children);
    assert [ShapeOf(s, root, n)][1..] == [];
  }

  lemma {:induction false} ShapesFit(s: Snap, root: Node, n: Node, kids: seq<Node>)
    requires Inv(s, root) && n in s && forall c :: c in kids ==> c in s[n].children
    ensures var ts := ShapesOf(s, root, n, kids);
            Heads(ts) == kids && Shaped(s, ts) && Roses(s, ts) == Views(s, root, None, n, kids)
    decreases Subtree(s, n), 0, |kids|
  {
    hide Inv, Subtree, Heads, Shaped, Roses, View, ShapeOf;
    if kids == [] {
      NoShapes(s);
    } else {
      var k := |kids| - 1;
      assert kids[k] in kids;
      OwnedBy(s, root, n, kids[k]);
      SubtreeShrinks(s, root, n, kids[k]);
      ShapesFit(s, root, n, kids[..k]);
      ShapeFits(s, root, kids[k]);
      var before, one := ShapesOf(s, root, n, kids[..k]), [ShapeOf(s, root, kids[k])];
      HeadsConcat(before, one);
      HeadsAt(one, 0);
      ShapedConcat(s, before, one);
      RosesConcat(s, before, one);
    }
  }

  lemma NoShapes(s: Snap)
    ensures Heads([]) == [] && Shaped(s, []) && Roses(s, []) == []
  {
  }

  // --- no node twice ----------------------------------------------------------------------------

  lemma {:induction false} ShapeBelow(s: Snap, root: Node, n: Node, m: Node)
    requires Inv(s, root) && n in s && m in PreOrder([ShapeOf(s, root, n)])
    ensures m in s && Below(s, n, m)
    decreases Subtree(s, n), 1, 0
  {
    hide Inv, Subtree, Below;
    OneShape(ShapeOf(s, root, n));
    BelowSelf(s, n);
    if m != n {
      var c := ShapesBelow(s, root, n, s[n].children, m);
      OwnedBy(s, root, n, c);
      BelowStep(s, n, n, c);
      BelowTransitive(s, root, n, c, m);
    }
  }

  lemma {:induction false} ShapesBelow(s: Snap, root: Node, n: Node, kids: seq<Node>, m: Node) returns (c: Node)
    requires Inv(s, root) && n in s && forall c :: c in kids ==> c in s[n].children
    requires m in PreOrder(ShapesOf(s, root, n, kids))
    ensures c in kids && m in s && Below(s, c, m)
    decreases Subtree(s, n), 0, |kids|
  {
    hide Inv, Subtree, Below, ShapeOf;
    var k := |kids| - 1;
    assert kids[k] in kids;
    OwnedBy(s, root, n, kids[k]);
    SubtreeShrinks(s, root, n, kids[k]);
    PreOrderConcat(ShapesOf(s, root, n, kids[..k]), [ShapeOf(s, root, kids[k])]);
    if m in PreOrder(ShapesOf(s, root, n, kids[..k])) {
      c := ShapesBelow(s, root, n, kids[..k], m);
    } else {
      c := kids[k];
      ShapeBelow(s, root, c, m);
    }
  }

  /** Nothing lies below two children of one node. */
  lemma {:induction false} SubtreesApart(s: Snap, root: Node, n: Node, a: Node, b: Node, m: Node)
    requires Inv(s, root) && n in s && a in s[n].children && b in s[n].children && a != b && m in s
    ensures !(Below(s, a, m) && Below(s, b, m))
    decreases if m in s && Grounded(s, m) then Height(s, m) else 0
  {
    hide Below, Inv;
    OwnedBy(s, root, n, a);
    OwnedBy(s, root, n, b);
    InvGrounds(s, root, m);
    HeightStep(s, m);
    if m == a {
      BelowParent(s, root, b, m);
      NotBelowOwnChild(s, root, n, b);
    } else if m == b {
      BelowParent(s, root, a, m);
      NotBelowOwnChild(s, root, n, a);
    } else {
      BelowParent(s, root, a, m);
      BelowParent(s, root, b, m);
      if s[m].parent != null {
        SubtreesApart(s, root, n, a, b, s[m].parent);
      }
    }
  }

  lemma NotBelowOwnChild(s: Snap, root: Node, n: Node, c: Node)
    requires Inv(s, root) && n in s && c in s[n].children
    ensures !Below(s, c, n)
  {
    hide Below;
    OwnedBy(s, root, n, c);
    HeightStep(s, c);
    if Below(s, c, n) {
      BelowIsDescendant(s, root, c, n);
      if n != c {
        DescendsHigher(s, c, n);
      }
    }
  }

  lemma {:induction false} ShapeHasNoRepeats(s: Snap, root: Node, n: Node)
    requires Inv(s, root) && n in s
    ensures NoDup(PreOrder([ShapeOf(s, root, n)]))
    decreases Subtree(s, n), 1, 0
  {
    hide Inv, Subtree, NoDup, Below;
    OneShape(ShapeOf(s, root, n));
    DistinctKids(s, root, n);
    ShapesHaveNoRepeats(s, root, n, s[n].children);
    var below := PreOrder(ShapesOf(s, root, n, s[n].children));
    if n in below {
      var c := ShapesBelow(s, root, n, s[n].children, n);
      NotBelowOwnChild(s, root, n, c);
    }
    NoDupCons(n, below);
  }

  lemma {:induction false} ShapesHaveNoRepeats(s: Snap, root: Node, n: Node, kids: seq<Node>)
    requires Inv(s, root) && n in s && NoDup(kids) && forall c :: c in kids ==> c in s[n].children
    ensures NoDup(PreOrder(ShapesOf(s, root, n, kids)))
    decreases Subtree(s, n), 0, |kids|
  {
    hide Inv, Subtree, NoDup, Below, ShapeOf;
    if kids == [] {
      NoNodes();
    } else {
      var k := |kids| - 1;
      assert kids[k] in kids && kids == kids[..k] + [kids[k]];
      NoDupParts(kids[..k], [kids[k]]);
      OwnedBy(s, root, n, kids[k]);
      SubtreeShrinks(s, root, n, kids[k]);
      ShapesHaveNoRepeats(s, root, n, kids[..k]);
      ShapeHasNoRepeats(s, root, kids[k]);
      var before, one := ShapesOf(s, root, n, kids[..k]), [ShapeOf(s, root, kids[k])];
      PreOrderConcat(before, one);
      forall m | m in PreOrder(before)
        ensures m !in PreOrder(one)
      {
        if m in PreOrder(one) {
          var c := ShapesBelow(s, root, n, kids[..k], m);
          ShapeBelow(s, root, kids[k], m);
          SubtreesApart(s, root, n, c, kids[k], m);
        }
      }
      NoDupConcat(PreOrder(before), PreOrder(one));
    }
  }

  lemma NoNodes()
    ensures PreOrder([]) == [] && NoDup(PreOrder([]))
  {
  }

  // --- a list of matches ---------------------------------------------------------------------------

  ghost function MatchShapes(s: Snap, root: Node, ns: seq<Node>): seq<Shape>
    requires Inv(s, root) && forall n :: n in ns ==> n in s
  {
    if ns == [] then []
    else
      var k := |ns| - 1;
      assert ns[k] in ns;
      MatchShapes(s, root, ns[..k]) + [ShapeOf(s, root, ns[k])]
  }

  lemma {:induction false} MatchShapesFit(s: Snap, root: Node, ns: seq<Node>)
    requires Inv(s, root) && forall n :: n in ns ==> n in s
    ensures var ts := MatchShapes(s, root, ns);
            Heads(ts) == ns && Shaped(s, ts) && Separate(ts) && Roses(s, ts) == ViewsOf(s, root, None, ns)
  {
    hide Inv, Subtree, Heads, Shaped, Roses, View, ShapeOf, NoDup, PreOrder;
    if ns == [] {
      NoShapes(s);
    } else {
      var k := |ns| - 1;
      assert ns[k] in ns;
      MatchShapesFit(s, root, ns[..k]);
      ShapeFits(s, root, ns[k]);
      ShapeHasNoRepeats(s, root, ns[k]);
      var before, one := MatchShapes(s, root, ns[..k]), [ShapeOf(s, root, ns[k])];
      HeadsConcat(before, one);
      HeadsAt(one, 0);
      ShapedConcat(s, before, one);
      RosesConcat(s, before, one);
    }
  }

  // --- the pruned copy ---------------------------------------------------------------------------------

  /** s holds just the nodes of ts, each once. */
  ghost predicate Exactly(s: Snap, ts: seq<Shape>) {
    Shaped(s, ts) && NoDup(PreOrder(ts)) && s.Keys == Members(PreOrder(ts))
  }

  /** Shapes and what they read as only depend on the records of their own nodes. */
  lemma {:induction false} ShapesLocal(s: Snap, s': Snap, ts: seq<Shape>)
    requires Shaped(s, ts) && forall n :: n in PreOrder(ts) ==> n in s' && (n in s ==> s'[n] == s[n])
    ensures Shaped(s', ts) && Roses(s', ts) == Roses(s, ts)
  {
    if ts != [] {
      assert PreOrder(ts) == [ts[0].node] + PreOrder(ts[0].kids) + PreOrder(ts[1..]);
      assert ts[0].node in PreOrder(ts);
      ShapesLocal(s, s', ts[0].kids);
      ShapesLocal(s, s', ts[1..]);
    }
  }

  /** Two disjoint copies, side by side. */
  lemma ExactlyBoth(s: Snap, ts: seq<Shape>, s': Snap, ts': seq<Shape>)
    requires Exactly(s, ts) && Exactly(s', ts') && s.Keys !! s'.Keys
    ensures Exactly(s + s', ts + ts') && Roses(s + s', ts + ts') == Roses(s, ts) + Roses(s', ts')
  {
    hide Shaped, Roses, NoDup, PreOrder;
    assert forall n :: n in PreOrder(ts) ==> n in Members(PreOrder(ts));
    assert forall n :: n in PreOrder(ts') ==> n in Members(PreOrder(ts'));
    ShapesLocal(s, s + s', ts);
    ShapesLocal(s', s + s', ts');
    ShapedConcat(s + s', ts, ts');
    RosesConcat(s + s', ts, ts');
    PreOrderConcat(ts, ts');
    NoDupConcat(PreOrder(ts), PreOrder(ts'));
  }

  /** A copied node on top of the copies of its children. */
  lemma ExactlyTop(s: Snap, kids: seq<Shape>, c: Node, value: NodeValue)
    requires Exactly(s, kids) && c !in s
    ensures var s' := s[c := Rec(value, null, Heads(kids), 0)];
            && Exactly(s', [Shape(c, kids)])
            && Roses(s', [Shape(c, kids)]) == [Rose(c.key, value, Roses(s, kids))]
  {
    hide NoDup, PreOrder, Shaped, Roses, Heads;
    var s' := s[c := Rec(value, null, Heads(kids), 0)];
    assert forall n :: n in PreOrder(kids) ==> n in Members(PreOrder(kids));
    ShapesLocal(s, s', kids);
    OneShape(Shape(c, kids));
    TopShaped(s', Shape(c, kids));
    NoDupCons(c, PreOrder(kids));
    assert Members([c] + PreOrder(kids)) == {c} + Members(PreOrder(kids));
  }

  lemma TopShaped(s: Snap, t: Shape)
    requires Shaped(s, t.kids) && t.node in s && s[t.node].children == Heads(t.kids)
    ensures Shaped(s, [t]) && Roses(s, [t]) == [Rose(t.node.key, s[t.node].value, Roses(s, t.kids))]
  {
    assert [t][1..] == [];
  }

  lemma MirrorsNothing()
    ensures Mirrors(map[])
  {
  }

  lemma MirrorsBoth(s: Snap, s': Snap)
    requires Mirrors(s) && Mirrors(s')
    ensures Mirrors(s + s')
  {
  }

  lemma NothingCopied()
    ensures Exactly(map[], []) && Roses(map[], []) == [] && Heads([]) == []
  {
    assert Members(PreOrder([])) == {};
  }

  lemma ViewParts(s: Snap, root: Node, auth: Option<Checker>, n: Node)
    requires Inv(s, root) && n in s
    ensures View(s, root, auth, n) == Rose(n.key, s[n].value, Views(s, root, auth, n, s[n].children))
  {
    hide Inv, Subtree;
  }

  lemma ViewsSnoc(s: Snap, root: Node, auth: Option<Checker>, n: Node, kids: seq<Node>, c: Node)
    requires Inv(s, root) && n in s && (forall k :: k in kids ==> k in s[n].children) && c in s[n].children
    ensures forall k :: k in kids + [c] ==> k in s[n].children
    ensures c in s && Grounded(s, c)
    ensures Views(s, root, auth, n, kids + [c])
         == Views(s, root, auth, n, kids) + (if May(s, auth, OpRead, c) then [View(s, root, auth, c)] else [])
  {
    hide Inv, Subtree, View, May;
    OwnedBy(s, root, n, c);
    InvGrounds(s, root, c);
    assert (kids + [c])[..|kids|] == kids;
  }

  lemma NoViews(s: Snap, root: Node, auth: Option<Checker>, n: Node)
    requires Inv(s, root) && n in s
    ensures Views(s, root, auth, n, []) == []
  {
  }

  /** pruneVisible: new nodes, holding n's subtree less what lies at or below a node the caller may not read. */
  method PruneVisible(t: Tree, n: Node, auth: Option<Checker>) returns (c: Node, ghost s: Snap, ghost shape: Shape)
    requires t.Valid() && n in t.nodes
    ensures t.Valid()
    ensures fresh(c) && fresh(s.Keys) && Mirrors(s) && shape.node == c && Exactly(s, [shape])
    ensures Roses(s, [shape]) == [View(t.Snap(), t.root, auth, n)]
    decreases Subtree(t.Snap(), n), 1
  {
    hide Tree.Snap, Tree.Valid, Inv, IdsOk, Subtree, Exactly, Roses, Shaped, View, Views, Heads;
    t.Sound();
    t.Fields(n);
    ViewParts(t.Snap(), t.root, auth, n);
    c := new Node(n.key, n.value);
    ghost var kids: seq<Shape>;
    s, kids := PruneChildren(t, n, auth, c);
    shape := Shape(c, kids);
    ExactlyTop(s, kids, c, c.value);
    s := s[c := Rec(c.value, null, c.children, 0)];
  }

  method PruneChildren(t: Tree, n: Node, auth: Option<Checker>, c: Node) returns (ghost s: Snap, ghost kids: seq<Shape>)
    requires t.Valid() && n in t.nodes && c !in t.nodes && c.children == []
    modifies c`children
    ensures t.Valid()
    ensures fresh(s.Keys) && Mirrors(s) && c.children == Heads(kids) && Exactly(s, kids)
    ensures KidsOf(t.Snap(), n) == n.children && Roses(s, kids) == Views(t.Snap(), t.root, auth, n, KidsOf(t.Snap(), n))
    decreases Subtree(t.Snap(), n), 0
  {
    hide Tree.Snap, Tree.Valid, Inv, IdsOk, Subtree, Exactly, Roses, Shaped, View, Views, Heads, May, Mirrors, KidsOf;
    t.Sound();
    t.Fields(n);
    ghost var s0, root := t.Snap(), t.root;
    s, kids := map[], [];
    MirrorsNothing();
    NothingCopied();
    NoViews(s0, root, auth, n);
    KidsOfRecord(s0, n);
    var i := 0;
    while i < |n.children|
      invariant 0 <= i <= |n.children| && t.Valid() && t.Snap() == s0
      invariant fresh(s.Keys) && c !in s && Mirrors(s) && c.children == Heads(kids) && Exactly(s, kids)
      invariant Roses(s, kids) == Views(s0, root, auth, n, n.children[..i])
    {
      var child := n.children[i];
      assert n.children[..i + 1] == n.children[..i] + [child];
      ViewsSnoc(s0, root, auth, n, n.children[..i], child);
      KidsOfRecord(s0, n);
      SubtreeShrinks(s0, root, n, child);
      var may := t.RequireOp(auth, OpRead, child);
      if may {
        var cc, s1, shape := PruneVisible(t, child, auth);
        cc.parent := c;
        c.children := c.children + [cc];
        MirrorsBoth(s, s1);
        ExactlyBoth(s, kids, s1, [shape]);
        HeadsConcat(kids, [shape]);
        HeadsAt([shape], 0);
        s, kids := s + s1, kids + [shape];
      }
      i := i + 1;
    }
    assert n.children[..|n.children|] == n.children;
  }

  /** A pruned copy of each match. */
  method PruneMatches(t: Tree, matches: seq<Node>, auth: Option<Checker>)
    returns (copies: seq<Node>, ghost s: Snap, ghost shapes: seq<Shape>)
    requires t.Valid() && forall n :: n in matches ==> n in t.nodes
    ensures t.Valid() && Mirrors(s) && Heads(shapes) == copies && Shaped(s, shapes) && Separate(shapes)
    ensures Roses(s, shapes) == ViewsOf(t.Snap(), t.root, auth, matches)
  {
    hide Tree.Snap, Tree.Valid, Inv, IdsOk, Exactly, Roses, Shaped, View, ViewsOf, Heads, Mirrors, NoDup, PreOrder;
    t.Sound();
    ghost var s0, root := t.Snap(), t.root;
    copies, s, shapes := [], map[], [];
    MirrorsNothing();
    NothingCopied();
    NoMatches(s0, root, auth);
    var i := 0;
    while i < |matches|
      invariant 0 <= i <= |matches| && t.Valid() && t.Snap() == s0
      invariant fresh(s.Keys) && Mirrors(s) && Heads(shapes) == copies && Exactly(s, shapes) && Separate(shapes)
      invariant Roses(s, shapes) == ViewsOf(s0, root, auth, matches[..i])
    {
      assert matches[..i + 1] == matches[..i] + [matches[i]];
      ViewsOfSnoc(s0, root, auth, matches[..i], matches[i]);
      var c, s1, shape := PruneVisible(t, matches[i], auth);
      MirrorsBoth(s, s1);
      ExactlyIsShaped(s1, [shape]);
      ExactlyBoth(s, shapes, s1, [shape]);
      HeadsConcat(shapes, [shape]);
      HeadsAt([shape], 0);
      copies, s, shapes := copies + [c], s + s1, shapes + [shape];
      i := i + 1;
    }
    assert matches[..|matches|] == matches;
    ExactlyIsShaped(s, shapes);
  }

  lemma ExactlyIsShaped(s: Snap, ts: seq<Shape>)
    requires Exactly(s, ts)
    ensures Shaped(s, ts) && NoDup(PreOrder(ts))
  {
  }

  lemma NoMatches(s: Snap, root: Node, auth: Option<Checker>)
    requires Inv(s, root)
    ensures ViewsOf(s, root, auth, []) == []
  {
  }

  lemma ViewsOfSnoc(s: Snap, root: Node, auth: Option<Checker>, ns: seq<Node>, n: Node)
    requires Inv(s, root) && n in s
    ensures ViewsOf(s, root, auth, ns + [n]) == ViewsOf(s, root, auth, ns) + [View(s, root, auth, n)]
  {
    hide Inv, View;
    assert (ns + [n])[..|ns|] == ns;
  }

  /** Every offset of the forest that the expression matches fits an int64. */
  ghost predicate Addressable(env: Engine, s: Snap, root: Node, auth: Option<Checker>, base: Bytes)
    requires Inv(s, root)
  {
    var parsed := Parse(env.re, base);
    parsed.Ok? ==> Size(ViewsOf(s, root, auth, TreeRead.Evaluate(env, s, root, auth, parsed.value))) <= MAX_INT64
  }

  lemma MirrorsLive(t: Tree)
    ensures Mirrors(t.Snap())
  {
  }

  /** GetFullAs: the whole flattened result, where to resume in it, and the base expression. */
  method GetFullAs(t: Tree, env: Engine, expression: Bytes, auth: Option<Checker>)
    returns (r: Result<(seq<WireNode>, nat, Bytes), GetError>)
    requires t.Valid() && Addressable(env, t.Snap(), t.root, auth, SplitResumeSuffix(expression).0)
    ensures t.Valid()
    ensures match GetFull(env, t.Snap(), t.root, auth, expression)
            case Ok(g) => Size(g.forest) <= MAX_INT64 && g.resume >= 0 && r == Ok((Flat(g.forest), g.resume, g.base))
            case Err(e) => r == Err(e)
    ensures r.Ok? ==> r.value.1 <= |r.value.0|
  {
    hide Tree.Snap, Tree.Valid, Inv, IdsOk, TreeRead.Evaluate, Parse, Flat, Size, ViewsOf, Mirrors, Shaped, Roses,
         Heads, Separate;
    t.Sound();
    ghost var s0, root := t.Snap(), t.root;
    var (base, resume) := SplitResumeSuffix(expression);
    var parsed := ParseExpression(env.re, base);
    if parsed.Err? {
      return Err(BadExpression(parsed.error));
    }
    var matches := t.Evaluate(env, parsed.value, auth);
    ghost var s, shapes := s0, [];
    if auth.Some? {
      matches, s, shapes := PruneMatches(t, matches, auth);
    } else {
      shapes := MatchShapes(s0, root, matches);
      MatchShapesFit(s0, root, matches);
      MirrorsLive(t);
    }
    var flat := FlattenMatches(matches, s, shapes);
    if resume < 0 || resume > |flat| {
      return Err(ResumeOutOfRange);
    }
    return Ok((flat, resume, base));
  }

  // --- a leaf subtree ---------------------------------------------------------------------------------

  function EntryValues(entries: seq<(Bytes, NodeValue)>): (values: seq<NodeValue>)
    ensures |values| == |entries|
  {
    seq(|entries|, i requires 0 <= i < |entries| => entries[i].1)
  }

  /** What a subtree of entries reads as. */
  function EntryRoses(entries: seq<(Bytes, NodeValue)>): (rs: seq<Rose>) {
    seq(|entries|, i requires 0 <= i < |entries| => Rose(entries[i].0, entries[i].1, []))
  }

  lemma {:induction false} LeafRosesAre(leaves: seq<Node>, entries: seq<(Bytes, NodeValue)>)
    requires |leaves| == |entries| && forall i :: 0 <= i < |leaves| ==> leaves[i].key == entries[i].0
    ensures LeafRoses(leaves, EntryValues(entries)) == EntryRoses(entries)
  {
    if leaves != [] {
      var k := |leaves| - 1;
      LeafRosesAre(leaves[..k], entries[..k]);
      assert EntryValues(entries)[..k] == EntryValues(entries[..k]);
      assert EntryRoses(entries) == EntryRoses(entries[..k]) + [Rose(entries[k].0, entries[k].1, [])];
    }
  }

  lemma {:induction false} LeavesSize(rs: seq<Rose>)
    requires forall i :: 0 <= i < |rs| ==> rs[i].kids == []
    ensures Size(rs) == |rs|
  {
    if rs != [] {
      LeavesSize(rs[1..]);
    }
  }

  lemma OneMoreLeafState(st: State, top: Node, leaves: seq<Node>, values: seq<NodeValue>, n: Node, value: NodeValue)
    requires |values| == |leaves| && top in st.s
    ensures AppendLeaves(st, top, leaves + [n], values + [value]) == TreeGrow.AppendUnder(AppendLeaves(st, top, leaves, values), top, n, value)
  {
    assert (leaves + [n])[..|leaves|] == leaves && (values + [value])[..|values|] == values;
  }

  /** AppendLeafSubtree: the new nodes, and the subtree they make as Get would return it. */
  method AppendLeafSubtree(t: Tree, parent: Node, rootKey: Bytes, entries: seq<(Bytes, NodeValue)>)
    returns (flat: seq<WireNode>, ghost top: Node, ghost leaves: seq<Node>)
    requires t.Valid() && parent in t.nodes && |entries| < MAX_INT64
    modifies t, t.nodes
    ensures t.Valid() && old(t.nodes) <= t.nodes && fresh(t.nodes - old(t.nodes))
    ensures fresh(top) && top.key == rootKey && |leaves| == |entries|
    ensures forall i :: 0 <= i < |leaves| ==> fresh(leaves[i]) && leaves[i].key == entries[i].0
    ensures NoDup([top] + leaves)
    ensures StateOf(t) == TreeGrow.AppendLeafSubtree(old(StateOf(t)), parent, top, leaves, EntryValues(entries))
    ensures Size([Rose(rootKey, NoValue, EntryRoses(entries))]) <= MAX_INT64
    ensures flat == Flat([Rose(rootKey, NoValue, EntryRoses(entries))])
  {
    hide Tree.Snap, Tree.Valid, Inv, IdsOk, TreeGrow.AppendUnder, AppendLeaves, Flat, Size, EntryRoses, Mirrors,
         Grows, ReachSet, NoDup;
    t.Sound();
    ghost var st := StateOf(t);
    var root := TreeGrowMethods.AppendUnder(t, parent, rootKey, NoValue);
    top, leaves := root, [];
    ghost var one := StateOf(t);
    NoLeafYet(one, root);
    var values: seq<NodeValue> := [];
    var i := 0;
    while i < |entries|
      invariant 0 <= i <= |entries| && t.Valid() && root in t.nodes && |leaves| == i
      invariant values == EntryValues(entries)[..i]
      invariant forall k :: 0 <= k < i ==> fresh(leaves[k]) && leaves[k].key == entries[k].0 && leaves[k] in t.nodes
      invariant NoDup([root] + leaves) && fresh(t.nodes - old(t.nodes)) && old(t.nodes) <= t.nodes
      invariant StateOf(t) == AppendLeaves(one, root, leaves, values)
    {
      var n := TreeGrowMethods.AppendUnder(t, root, entries[i].0, entries[i].1);
      OneMoreLeafState(one, root, leaves, values, n, entries[i].1);
      assert ([root] + leaves) + [n] == [root] + (leaves + [n]);
      NoDupSnoc([root] + leaves, n);
      leaves, values := leaves + [n], values + [entries[i].1];
      i := i + 1;
    }
    assert values == EntryValues(entries);
    LeafSubtreeReads(st, t.root, parent, root, leaves, entries);
    t.Sound();
    ghost var shape := ShapeOf(t.Snap(), t.root, root);
    ShapeFits(t.Snap(), t.root, root);
    ShapeHasNoRepeats(t.Snap(), t.root, root);
    MirrorsLive(t);
    flat := FlattenSubtree(root, t.Snap(), shape);
  }

  lemma NoLeafYet(one: State, top: Node)
    requires top in one.s
    ensures AppendLeaves(one, top, [], []) == one && NoDup([top] + [])
  {
  }

  lemma LeafSubtreeReads(st: State, root: Node, parent: Node, top: Node, leaves: seq<Node>, entries: seq<(Bytes,
                         NodeValue)>)
    requires Sane(st, root) && parent in st.s && |leaves| == |entries| < MAX_INT64
    requires top !in st.s && NoDup([top] + leaves) && forall n :: n in leaves ==> n !in st.s
    requires forall i :: 0 <= i < |leaves| ==> leaves[i].key == entries[i].0
    ensures var t, rose := TreeGrow.AppendLeafSubtree(st, parent, top, leaves, EntryValues(entries)), Rose(top.key, NoValue, EntryRoses(entries));
            && Inv(t.s, root) && top in t.s && View(t.s, root, None, top) == rose && Size([rose]) <= MAX_INT64
  {
    hide TreeGrow.AppendLeafSubtree, View, Inv, IdsOk, NoDup, ReachSet;
    LeafSubtreeGrows(st, root, parent, top, leaves, EntryValues(entries));
    LeafRosesAre(leaves, entries);
    LeavesSize(EntryRoses(entries));
    var rose := Rose(top.key, NoValue, EntryRoses(entries));
    assert [rose][1..] == [];
  }
}
