/**
 * What reading shows, said of paths: a chain of nodes, one a level, from the root down.
 * Evaluation finds the ends of the chains that match an expression node by node
 * (goimpl/internal/tree/tree.go:236-267), a node's path is its chain's keys, and a Get
 * shows of each match what is readable all the way up to it (tree.go:273-282).
 */
module TreePaths {
  import opened Basics
  import opened WireTypes
  import opened Expression
  import opened Authz
  import opened Flatten
  import opened TreeState
  import opened TreeRead
  import opened TreeFlatten
  import opened TreeGetMethods

  /** What stands above place i of a path that begins below root. */
  function Above(root: Node, path: seq<Node>, i: nat): Node
    requires i <= |path|
  {
    if i == 0 then root else path[i - 1]
  }

  /** Each node of the path is listed by the one before it, the first by the root. */
  ghost predicate IsChain(s: Snap, root: Node, path: seq<Node>) {
    forall i :: 0 <= i < |path| ==> Listed(s, root, path, i)
  }

  predicate Listed(s: Snap, root: Node, path: seq<Node>, i: nat)
    requires i < |path|
  {
    path[i] in KidsOf(s, Above(root, path, i))
  }

  lemma ChainInit(s: Snap, root: Node, path: seq<Node>)
    requires IsChain(s, root, path) && path != []
    ensures IsChain(s, root, path[..|path| - 1])
    ensures path[|path| - 1] in KidsOf(s, Above(root, path, |path| - 1))
  {
    var init := path[..|path| - 1];
    forall i | 0 <= i < |init|
      ensures Listed(s, root, init, i)
    {
      assert Listed(s, root, path, i);
    }
    assert Listed(s, root, path, |path| - 1);
  }

  lemma ChainSnoc(s: Snap, root: Node, init: seq<Node>, n: Node)
    requires IsChain(s, root, init) && n in KidsOf(s, Above(root, init, |init|))
    ensures IsChain(s, root, init + [n])
  {
    forall i | 0 <= i < |init| + 1
      ensures Listed(s, root, init + [n], i)
    {
      assert i < |init| ==> Listed(s, root, init, i);
    }
  }

  lemma {:induction false} ChainInside(s: Snap, root: Node, path: seq<Node>)
    requires Inv(s, root) && IsChain(s, root, path) && path != []
    ensures var n := path[|path| - 1];
            && n in s && Grounded(s, n) && Below(s, root, n) && Height(s, n) == |path|
            && s[n].parent == Above(root, path, |path| - 1)
  {
    hide Inv, Below, Height;
    ChainInit(s, root, path);
    var n, p := path[|path| - 1], Above(root, path, |path| - 1);
    OwnedBy(s, root, p, n);
    if |path| > 1 {
      ChainInside(s, root, path[..|path| - 1]);
    } else {
      RootHasNoParent(s, root);
      BelowSelf(s, root);
      InvGrounds(s, root, root);
      HeightStep(s, root);
    }
    InvGrounds(s, root, n);
    HeightStep(s, n);
    BelowStep(s, root, p, n);
  }

  // --- evaluation ----------------------------------------------------------------------------

  /**
   * Node by node the path matches the segments: the key by its pattern, a value predicate
   * only on a value that the caller may read and that has a text, and at the end the
   * caller may read the node.
   */
  ghost predicate Follows(env: Engine, s: Snap, root: Node, auth: Option<Checker>, segments: seq<Segment>,
                          path: seq<Node>)
  {
    && |path| <= |segments| && IsChain(s, root, path)
    && forall i :: 0 <= i < |path| ==> Admits(env, s, auth, segments[i], i == |segments| - 1, path[i])
  }

  ghost predicate Admits(env: Engine, s: Snap, auth: Option<Checker>, seg: Segment, last: bool, n: Node) {
    n in s && Grounded(s, n) && env.re.matches(seg.key, n.key)
    && (last || seg.value.Some? ==> auth.None? || auth.value(OpRead, NodePath(s, n)))
    && (seg.value.Some? ==> s[n].value != NoValue && env.re.matches(seg.value.value, ValueText(env, s[n].value)))
  }

  lemma AdmitsMatches(env: Engine, s: Snap, auth: Option<Checker>, seg: Segment, last: bool, n: Node)
    ensures Admits(env, s, auth, seg, last, n) <==> Matches(env, s, auth, seg, last, n)
  {
  }

  lemma {:induction false} FollowedMatches(env: Engine, s: Snap, root: Node, auth: Option<Checker>,
                                           segments: seq<Segment>,
                                           path: seq<Node>)
    requires Inv(s, root) && Follows(env, s, root, auth, segments, path) && path != []
    ensures MatchesUpTo(env, s, auth, segments, |path|, path[|path| - 1])
  {
    hide Inv, Below, Height, Matches, Admits;
    ChainInside(s, root, path);
    var k := |path|;
    AdmitsMatches(env, s, auth, segments[k - 1], k == |segments|, path[k - 1]);
    if k > 1 {
      ChainInit(s, root, path);
      FollowedMatches(env, s, root, auth, segments, path[..k - 1]);
    }
  }

  lemma {:induction false} MatchedPath(env: Engine, s: Snap, root: Node, auth: Option<Checker>, segments: seq<Segment>,
                                       k: nat, n: Node) returns (path: seq<Node>)
    requires Inv(s, root) && k <= |segments| && n in s && Grounded(s, n) && Below(s, root, n) && Height(s, n) == k
    requires MatchesUpTo(env, s, auth, segments, k, n)
    ensures |path| == k && Follows(env, s, root, auth, segments, path) && n == (if k == 0 then root else path[k - 1])
  {
    hide Inv, Below, Height, Matches, Admits;
    HeightStep(s, n);
    if k == 0 {
      path := [];
      if n != root {
        BelowParent(s, root, root, n);
      }
    } else {
      RootHasNoParent(s, root);
      HeightStep(s, root);
      BelowParent(s, root, root, n);
      var p := s[n].parent;
      ParentInside(s, root, n);
      InvGrounds(s, root, p);
      var init := MatchedPath(env, s, root, auth, segments, k - 1, p);
      AdmitsMatches(env, s, auth, segments[k - 1], k == |segments|, n);
      path := init + [n];
      ChainSnoc(s, root, init, n);
    }
  }

  /** Evaluation returns exactly the ends of the paths that match, one node for each segment. */
  lemma PathsAreFound(env: Engine, s: Snap, root: Node, auth: Option<Checker>, segments: seq<Segment>, path: seq<Node>)
    requires Inv(s, root) && Follows(env, s, root, auth, segments, path) && |path| == |segments| > 0
    ensures path[|path| - 1] in Evaluate(env, s, root, auth, segments)
  {
    hide Inv, Below, Height, Evaluate, MatchesUpTo, Admits;
    ChainInside(s, root, path);
    FollowedMatches(env, s, root, auth, segments, path);
    EvaluateMember(env, s, root, auth, segments, path[|path| - 1]);
  }

  lemma FoundHasPath(env: Engine, s: Snap, root: Node, auth: Option<Checker>, segments: seq<Segment>, n: Node)
    returns (path: seq<Node>)
    requires Inv(s, root) && segments != [] && n in Evaluate(env, s, root, auth, segments)
    ensures |path| == |segments| && Follows(env, s, root, auth, segments, path) && path[|path| - 1] == n
  {
    hide Inv, Below, Height, Evaluate, MatchesUpTo, Admits;
    EvaluateMember(env, s, root, auth, segments, n);
    path := MatchedPath(env, s, root, auth, segments, |segments|, n);
  }

  /** An integer's text is the number as it is read back, sign included, without needless zeros; octets are their own text. */
  lemma ValueTextReads(env: Engine, v: NodeValue)
    ensures match v
            case Integer32Value(x) => Atoi(ValueText(env, v)) == Some(x) && Plain(ValueText(env, v))
            case Unsigned32Value(x) => Atoi(ValueText(env, v)) == Some(x) && Plain(ValueText(env, v))
            case Counter32Value(x) => Atoi(ValueText(env, v)) == Some(x) && Plain(ValueText(env, v))
            case Counter64Value(x) => Digits(ValueText(env, v)) == Some(x) && Plain(ValueText(env, v))
            case TimeTicksValue(x) => Atoi(ValueText(env, v)) == Some(x) && Plain(ValueText(env, v))
            case OctetStringValue(b) => ValueText(env, v) == b
            case RealValue(bits) => ValueText(env, v) == env.realText(bits)
            case NoValue => true
  {
    match v
    case Integer32Value(x) => IntTextReads(x);
    case Unsigned32Value(x) => DecimalReads(x);
    case Counter32Value(x) => DecimalReads(x);
    case Counter64Value(x) => DecimalReads(x);
    case TimeTicksValue(x) => DecimalReads(x);
    case _ =>
  }

  /** Digits, behind a minus or nothing, and not beginning with a zero unless that is all. */
  predicate Plain(text: Bytes) {
    var digits := if text != [] && text[0] == MINUS then text[1..] else text;
    && digits != [] && (forall i :: 0 <= i < |digits| ==> IsDigit(digits[i]))
    && (digits[0] == ZERO ==> text == [ZERO])
  }

  lemma {:induction false} DecimalLeads(n: nat)
    ensures Decimal(n)[0] == ZERO <==> n == 0
    ensures n == 0 ==> Decimal(n) == [ZERO]
  {
    if n >= 10 {
      DecimalLeads(n / 10);
      assert Decimal(n)[0] == Decimal(n / 10)[0];
    }
  }

  lemma DecimalReads(n: nat)
    ensures Digits(Decimal(n)) == Some(n) && Plain(Decimal(n))
    ensures n <= MAX_INT64 ==> Atoi(Decimal(n)) == Some(n)
  {
    DigitsDecimal(n);
    DecimalLeads(n);
    DecimalSigns(n);
    hide Decimal, Digits;
  }

  lemma DecimalSigns(n: nat)
    ensures Decimal(n)[0] != MINUS && Decimal(n)[0] != PLUS
    ensures forall i :: 0 <= i < |Decimal(n)| ==> IsDigit(Decimal(n)[i])
  {
  }

  lemma IntTextReads(x: int)
    requires -MAX_INT64 <= x <= MAX_INT64
    ensures Atoi(IntText(x)) == Some(x) && Plain(IntText(x))
  {
    hide Decimal, Digits;
    if x < 0 {
      DigitsDecimal(-x);
      DecimalLeads(-x);
      DecimalSigns(-x);
      assert IntText(x)[1..] == Decimal(-x);
    } else {
      DecimalReads(x);
    }
  }

  // --- paths as text -------------------------------------------------------------------------

  /** The keys of a chain, each behind a slash. */
  function KeysText(path: seq<Node>): Bytes {
    if path == [] then [] else KeysText(path[..|path| - 1]) + [SLASH] + path[|path| - 1].key
  }

  /** The path by which access to a node is decided. */
  lemma {:induction false} NodePathIsKeys(s: Snap, root: Node, path: seq<Node>)
    requires Inv(s, root) && IsChain(s, root, path) && path != []
    ensures var n := path[|path| - 1]; Grounded(s, n) && NodePath(s, n) == KeysText(path)
  {
    hide Inv, Below, Height;
    ChainInside(s, root, path);
    RootHasNoParent(s, root);
    HeightStep(s, root);
    if |path| > 1 {
      ChainInit(s, root, path);
      ChainInside(s, root, path[..|path| - 1]);
      NodePathIsKeys(s, root, path[..|path| - 1]);
      var p := path[|path| - 2];
      assert path[..|path| - 1][|path| - 2] == p && s[p].parent != null;
    } else {
      assert path[..|path| - 1] == [];
      assert KeyPath(s, root) == [] && KeyPath(s, path[0]) == [] + [SLASH] + path[0].key;
    }
  }

  // --- what a Get shows ------------------------------------------------------------------------

  /** Every node from m up to just below top may be read. */
  ghost predicate ReadableUpTo(s: Snap, auth: Option<Checker>, top: Node, m: Node)
    decreases if Grounded(s, m) then Height(s, m) else 0
  {
    m == top
    || (m in s && Grounded(s, m) && (auth.None? || auth.value(OpRead, NodePath(s, m)))
        && (HeightStep(s, m); s[m].parent != null && ReadableUpTo(s, auth, top, s[m].parent)))
  }

  ghost function Shown(s: Snap, auth: Option<Checker>, top: Node): set<Node> {
    set m | m in s && ReadableUpTo(s, auth, top, m)
  }

  /** Keys and values of a forest, in pre-order. */
  function Labels(ts: seq<Rose>): (ls: seq<(Bytes, NodeValue)>)
    ensures |ls| == Size(ts)
  {
    if ts == [] then [] else [(ts[0].key, ts[0].value)] + Labels(ts[0].kids) + Labels(ts[1..])
  }

  lemma {:induction false} LabelsConcat(a: seq<Rose>, b: seq<Rose>)
    ensures Labels(a + b) == Labels(a) + Labels(b)
  {
    if a == [] {
      assert a + b == b;
    } else {
      assert (a + b)[1..] == a[1..] + b && (a + b)[0] == a[0];
      LabelsConcat(a[1..], b);
    }
  }

  function LabelsOf(s: Snap, ns: seq<Node>): (ls: seq<(Bytes, NodeValue)>)
    ensures |ls| == |ns|
  {
    seq(|ns|, i requires 0 <= i < |ns| => (ns[i].key, ValueOf(s, ns[i])))
  }

  lemma LabelsOfConcat(s: Snap, a: seq<Node>, b: seq<Node>)
    ensures LabelsOf(s, a + b) == LabelsOf(s, a) + LabelsOf(s, b)
  {
  }

  /** The array of a forest has its keys and values in pre-order. */
  lemma {:induction false} FlatHasLabels(ts: seq<Rose>, i: nat)
    requires Size(ts) <= MAX_INT64 && i < Size(ts)
    ensures Flat(ts)[i].key == Labels(ts)[i].0 && Flat(ts)[i].value == Labels(ts)[i].1
    decreases Size(ts)
  {
    var m := Size(ts[0].kids);
    FlatHead(ts);
    hide Flat;
    if 0 < i <= m {
      FlatHasLabels(ts[0].kids, i - 1);
    } else if i > m {
      FlatHasLabels(ts[1..], i - m - 1);
    }
  }

  /** Of nothing below an unreadable child is anything shown; of the rest as of the child itself. */
  lemma {:induction false} ShownBelowChild(s: Snap, root: Node, auth: Option<Checker>, top: Node, c: Node, m: Node)
    requires Inv(s, root) && top in s && c in s[top].children && m in s && Below(s, c, m)
    ensures c in s && Grounded(s, c)
    ensures m in Shown(s, auth, top) <==> May(s, auth, OpRead, c) && m in Shown(s, auth, c)
    decreases if Grounded(s, m) then Height(s, m) else 0
  {
    hide Inv, Below, Height, May;
    OwnedBy(s, root, top, c);
    InvGrounds(s, root, c);
    InvGrounds(s, root, m);
    HeightStep(s, m);
    NotBelowOwnChild(s, root, top, c);
    BelowSelf(s, c);
    MayMeans(s, auth, OpRead, m);
    if m != c {
      BelowParent(s, root, c, m);
      ParentInside(s, root, m);
      ShownBelowChild(s, root, auth, top, c, s[m].parent);
    } else {
      assert ReadableUpTo(s, auth, top, s[c].parent);
    }
  }

  lemma {:induction false} ViewShows(s: Snap, root: Node, auth: Option<Checker>, n: Node)
    requires Inv(s, root) && n in s
    ensures Labels([View(s, root, auth, n)]) == LabelsOf(s, KeepNodes(PreOrder([ShapeOf(s, root, n)]), Shown(s, auth, n)))
    decreases Subtree(s, n), 1, 0
  {
    hide Inv, Subtree, View, Views, May, KeepNodes, ShapesOf, Shown, PreOrder;
    var below := PreOrder(ShapesOf(s, root, n, s[n].children));
    var shown := Shown(s, auth, n);
    ViewParts(s, root, auth, n);
    ViewsShow(s, root, auth, n, s[n].children);
    OneShape(ShapeOf(s, root, n));
    ShapeKids(s, root, n);
    KeepConcat([n], below, shown);
    TopIsShown(s, auth, n);
    KeepAll([n], shown);
    LabelsOfConcat(s, [n], KeepNodes(below, shown));
    OneRose(View(s, root, auth, n));
  }

  lemma ShapeKids(s: Snap, root: Node, n: Node)
    requires Inv(s, root) && n in s
    ensures ShapeOf(s, root, n) == Shape(n, ShapesOf(s, root, n, s[n].children))
  {
    hide Inv, Subtree;
  }

  lemma TopIsShown(s: Snap, auth: Option<Checker>, n: Node)
    requires n in s
    ensures n in Shown(s, auth, n)
  {
  }

  lemma OneRose(t: Rose)
    ensures Labels([t]) == [(t.key, t.value)] + Labels(t.kids)
  {
    assert [t][1..] == [];
  }

  lemma {:induction false} ViewsShow(s: Snap, root: Node, auth: Option<Checker>, n: Node, kids: seq<Node>)
    requires Inv(s, root) && n in s && forall c :: c in kids ==> c in s[n].children
    ensures Labels(Views(s, root, auth, n, kids))
         == LabelsOf(s, KeepNodes(PreOrder(ShapesOf(s, root, n, kids)), Shown(s, auth, n)))
    decreases Subtree(s, n), 0, |kids|
  {
    hide Inv, Subtree, View, Views, May, KeepNodes, ShapeOf, Shown, Below, PreOrder, Labels, LabelsOf;
    if kids == [] {
      NothingShows(s, root, auth, n);
    } else {
      var k := |kids| - 1;
      var c := kids[k];
      assert c in kids && kids == kids[..k] + [c];
      OwnedBy(s, root, n, c);
      InvGrounds(s, root, c);
      SubtreeShrinks(s, root, n, c);
      ViewsShow(s, root, auth, n, kids[..k]);
      ViewsSnoc(s, root, auth, n, kids[..k], c);
      var before, one := PreOrder(ShapesOf(s, root, n, kids[..k])), PreOrder([ShapeOf(s, root, c)]);
      PreOrderConcat(ShapesOf(s, root, n, kids[..k]), [ShapeOf(s, root, c)]);
      KeepConcat(before, one, Shown(s, auth, n));
      LabelsOfConcat(s, KeepNodes(before, Shown(s, auth, n)), KeepNodes(one, Shown(s, auth, n)));
      forall m | m in one
        ensures m in Shown(s, auth, n) <==> May(s, auth, OpRead, c) && m in Shown(s, auth, c)
      {
        ShapeBelow(s, root, c, m);
        ShownBelowChild(s, root, auth, n, c, m);
      }
      KeepIf(one, May(s, auth, OpRead, c), Shown(s, auth, c), Shown(s, auth, n));
      if May(s, auth, OpRead, c) {
        ViewShows(s, root, auth, c);
        LabelsConcat(Views(s, root, auth, n, kids[..k]), [View(s, root, auth, c)]);
      } else {
        NoLabels(s);
        assert Views(s, root, auth, n, kids[..k]) + [] == Views(s, root, auth, n, kids[..k]);
      }
    }
  }

  lemma NoLabels(s: Snap)
    ensures LabelsOf(s, []) == [] && Labels([]) == []
    ensures forall ls: seq<(Bytes, NodeValue)> :: ls + [] == ls
  {
  }

  lemma NothingShows(s: Snap, root: Node, auth: Option<Checker>, n: Node)
    requires Inv(s, root) && n in s
    ensures Labels(Views(s, root, auth, n, []))
         == LabelsOf(s, KeepNodes(PreOrder(ShapesOf(s, root, n, [])), Shown(s, auth, n)))
  {
  }

  /** The nodes of a list that the caller may read, in order. */
  ghost function Readable(s: Snap, auth: Option<Checker>): set<Node> {
    set n | n in s && Grounded(s, n) && (auth.None? || auth.value(OpRead, NodePath(s, n)))
  }

  /** How it nests: a node as it is, and under it its readable children, each in the same way. */
  lemma ViewNests(s: Snap, root: Node, auth: Option<Checker>, n: Node)
    requires Inv(s, root) && n in s
    ensures var (v, cs) := (View(s, root, auth, n), KeepNodes(s[n].children, Readable(s, auth)));
            && v.key == n.key && v.value == s[n].value && |v.kids| == |cs|
            && (forall i :: 0 <= i < |cs| ==> cs[i] in s && v.kids[i] == View(s, root, auth, cs[i]))
  {
    hide Inv, Subtree, View, Views, KeepNodes;
    ViewParts(s, root, auth, n);
    ViewsNest(s, root, auth, n, s[n].children);
  }

  lemma {:induction false} ViewsNest(s: Snap, root: Node, auth: Option<Checker>, n: Node, kids: seq<Node>)
    requires Inv(s, root) && n in s && forall c :: c in kids ==> c in s[n].children
    ensures var (vs, cs) := (Views(s, root, auth, n, kids), KeepNodes(kids, Readable(s, auth)));
            && |vs| == |cs| && (forall i :: 0 <= i < |cs| ==> cs[i] in s && vs[i] == View(s, root, auth, cs[i]))
  {
    hide Inv, Subtree, View, Views, KeepNodes, May;
    if kids == [] {
      NoViews(s, root, auth, n);
      KeepAll([], Readable(s, auth));
    } else {
      var k := |kids| - 1;
      var c := kids[k];
      assert c in kids && kids == kids[..k] + [c];
      OwnedBy(s, root, n, c);
      InvGrounds(s, root, c);
      MayMeans(s, auth, OpRead, c);
      ViewsNest(s, root, auth, n, kids[..k]);
      ViewsSnoc(s, root, auth, n, kids[..k], c);
      KeepSnoc(kids[..k], c, Readable(s, auth));
    }
  }

  /** The pre-order of a node's subtree has every node below it. */
  lemma {:induction false} BelowInShape(s: Snap, root: Node, n: Node, m: Node)
    requires Inv(s, root) && n in s && m in s && Below(s, n, m)
    ensures m in PreOrder([ShapeOf(s, root, n)])
    decreases if Grounded(s, m) then Height(s, m) else 0
  {
    hide Inv, Below, Height, ShapeOf, PreOrder;
    ShapeFits(s, root, n);
    var ts := [ShapeOf(s, root, n)];
    if m == n {
      HeadInPreOrder(ts, 0);
    } else {
      InvGrounds(s, root, m);
      HeightStep(s, m);
      BelowParent(s, root, n, m);
      ParentInside(s, root, m);
      var p := s[m].parent;
      BelowInShape(s, root, n, p);
      var i :| 0 <= i < |s[p].children| && s[p].children[i] == m;
      ChildrenInside(s, ts, p, i);
    }
  }

  /** Of each match in turn, the nodes of its subtree, in pre-order, that are readable all the way up to it. */
  ghost function ShownOf(s: Snap, root: Node, auth: Option<Checker>, ns: seq<Node>): seq<Node>
    requires Inv(s, root) && forall n :: n in ns ==> n in s
  {
    if ns == [] then []
    else
      var k := |ns| - 1;
      assert ns[k] in ns;
      ShownOf(s, root, auth, ns[..k]) + KeepNodes(PreOrder([ShapeOf(s, root, ns[k])]), Shown(s, auth, ns[k]))
  }

  lemma {:induction false} MatchesShow(s: Snap, root: Node, auth: Option<Checker>, ns: seq<Node>)
    requires Inv(s, root) && forall n :: n in ns ==> n in s
    ensures Labels(ViewsOf(s, root, auth, ns)) == LabelsOf(s, ShownOf(s, root, auth, ns))
  {
    hide Inv, View, Shown, PreOrder, KeepNodes, ShapeOf, LabelsOf, Labels;
    if ns == [] {
      NoLabels(s);
    } else {
      var k := |ns| - 1;
      assert ns[k] in ns && ns == ns[..k] + [ns[k]];
      MatchesShow(s, root, auth, ns[..k]);
      ViewShows(s, root, auth, ns[k]);
      LabelsConcat(ViewsOf(s, root, auth, ns[..k]), [View(s, root, auth, ns[k])]);
      LabelsOfConcat(s, ShownOf(s, root, auth, ns[..k]),
                     KeepNodes(PreOrder([ShapeOf(s, root, ns[k])]), Shown(s, auth, ns[k])));
    }
  }

  /**
   * What a Get's array holds: the key and value of each node shown, match by match and in
   * pre-order, and nothing else.
   */
  lemma GetShows(env: Engine, s: Snap, root: Node, auth: Option<Checker>, expression: Bytes, ns: seq<Node>)
    requires Inv(s, root) && GetFull(env, s, root, auth, expression).Ok?
    requires var parsed := Parse(env.re, SplitResumeSuffix(expression).0);
             parsed.Ok? && ns == Evaluate(env, s, root, auth, parsed.value)
    ensures forall n :: n in ns ==> n in s
    ensures var forest := GetFull(env, s, root, auth, expression).value.forest;
            && Size(forest) == |ShownOf(s, root, auth, ns)|
            && (Size(forest) <= MAX_INT64 ==>
                  forall i :: 0 <= i < Size(forest) ==>
                    && Flat(forest)[i].key == ShownOf(s, root, auth, ns)[i].key
                    && Flat(forest)[i].value == ValueOf(s, ShownOf(s, root, auth, ns)[i]))
  {
    hide Inv, Evaluate, SplitResumeSuffix, Parse, Flat, ShownOf, ViewsOf, Labels, LabelsOf;
    AllInside(env, s, root, auth, Parse(env.re, SplitResumeSuffix(expression).0).value);
    MatchesShow(s, root, auth, ns);
    var forest := GetFull(env, s, root, auth, expression).value.forest;
    if Size(forest) <= MAX_INT64 {
      forall i | 0 <= i < Size(forest)
        ensures Flat(forest)[i].key == ShownOf(s, root, auth, ns)[i].key
        ensures Flat(forest)[i].value == ValueOf(s, ShownOf(s, root, auth, ns)[i])
      {
        FlatHasLabels(forest, i);
        LabelAt(s, ShownOf(s, root, auth, ns), i);
      }
    }
  }

  lemma LabelAt(s: Snap, ns: seq<Node>, i: nat)
    requires i < |ns|
    ensures LabelsOf(s, ns)[i] == (ns[i].key, ValueOf(s, ns[i]))
  {
  }

  lemma AllInside(env: Engine, s: Snap, root: Node, auth: Option<Checker>, segments: seq<Segment>)
    requires Inv(s, root)
    ensures forall n :: n in Evaluate(env, s, root, auth, segments) ==> n in s
  {
    hide Inv, Evaluate, Below, Height, MatchesUpTo;
    forall n | n in Evaluate(env, s, root, auth, segments)
      ensures n in s
    {
      EvaluateMember(env, s, root, auth, segments, n);
    }
  }
}
