/**
 * Reading the tree, after goimpl/internal/tree/tree.go:196-282 and 402-428: node
 * paths, evaluating a match expression for an identity, and what a Get returns.
 */
module TreeRead {
  import opened Basics
  import opened WireTypes
  import opened Expression
  import opened Authz
  import opened Flatten
  import opened TreeState

  /** The parts of the world outside the tree: regexps, and how a float prints. */
  datatype Engine = Engine(re: Regexps, realText: Float64 -> Bytes)

  // --- paths ------------------------------------------------------------------------

  /** The keys from below the top of n's parent chain down to n, each behind a slash. */
  ghost function KeyPath(s: Snap, n: Node): Bytes
    requires Grounded(s, n)
    decreases Height(s, n)
  {
    HeightStep(s, n);
    if s[n].parent == null then [] else KeyPath(s, s[n].parent) + [SLASH] + n.key
  }

  ghost function NodePath(s: Snap, n: Node): Bytes
    requires Grounded(s, n)
  {
    if n in s && s[n].parent == null then [SLASH] else KeyPath(s, n)
  }

  ghost predicate SameParents(s: Snap, s': Snap) {
    forall n :: n in s ==> n in s' && s'[n].parent == s[n].parent
  }

  lemma {:induction false} KeyPathSame(s: Snap, s': Snap, n: Node)
    requires SameParents(s, s') && Grounded(s, n)
    ensures Grounded(s', n) && KeyPath(s', n) == KeyPath(s, n) && NodePath(s', n) == NodePath(s, n)
    decreases Height(s, n)
  {
    var k: nat :| Climbs(s, n, k);
    ClimbsSame(s, s', n, k);
    HeightStep(s, n);
    if s[n].parent != null {
      KeyPathSame(s, s', s[n].parent);
    }
  }

  // --- who may do what ----------------------------------------------------------------

  /** requireOp and canRead: no checker allows everything. */
  ghost predicate May(s: Snap, auth: Option<Checker>, op: Op, n: Node)
    requires Grounded(s, n)
  {
    auth.None? || auth.value(op, NodePath(s, n))
  }

  lemma MayMeans(s: Snap, auth: Option<Checker>, op: Op, n: Node)
    requires Grounded(s, n)
    ensures May(s, auth, op, n) <==> auth.None? || auth.value(op, NodePath(s, n))
  {
  }

  // --- one segment ----------------------------------------------------------------------

  function IntText(v: int): Bytes {
    if v < 0 then [MINUS] + Decimal(-v) else Decimal(v)
  }

  /** valueAsText, for the kinds of value that a predicate is tried against. */
  function ValueText(env: Engine, v: NodeValue): Bytes {
    match v
    case OctetStringValue(b) => b
    case Integer32Value(x) => IntText(x)
    case Unsigned32Value(x) => Decimal(x)
    case Counter32Value(x) => Decimal(x)
    case Counter64Value(x) => Decimal(x)
    case TimeTicksValue(x) => Decimal(x)
    case RealValue(bits) => env.realText(bits)
    case NoValue => []
  }

  /** Whether a child passes a segment, given whether the caller may read it. */
  predicate Passes(env: Engine, seg: Segment, last: bool, key: Bytes, value: NodeValue, readable: bool) {
    && env.re.matches(seg.key, key)
    && (seg.value.Some? ==>
          && readable
          && (value.IsNumeric() || value.OctetStringValue?)
          && env.re.matches(seg.value.value, ValueText(env, value)))
    && (last ==> readable)
  }

  ghost predicate Matches(env: Engine, s: Snap, auth: Option<Checker>, seg: Segment, last: bool, n: Node) {
    && Grounded(s, n) && n in s
    && Passes(env, seg, last, n.key, s[n].value, May(s, auth, OpRead, n))
  }

  // --- evaluation -------------------------------------------------------------------------

  /** The nodes of a list that satisfy p, in order. */
  ghost function KeepNodes(xs: seq<Node>, p: set<Node>): seq<Node> {
    if xs == [] then []
    else
      var n := |xs| - 1;
      KeepNodes(xs[..n], p) + (if xs[n] in p then [xs[n]] else [])
  }

  /** The children of each node of ns in turn that satisfy p. */
  ghost function Expand(s: Snap, ns: seq<Node>, p: set<Node>): seq<Node> {
    if ns == [] then []
    else
      var n := |ns| - 1;
      Expand(s, ns[..n], p) + KeepNodes(KidsOf(s, ns[n]), p)
  }

  ghost function Matching(env: Engine, s: Snap, auth: Option<Checker>, seg: Segment, last: bool): set<Node> {
    set n | n in s && Matches(env, s, auth, seg, last, n)
  }

  /** evaluateAs after its first k segments. */
  ghost function Walk(env: Engine, s: Snap, root: Node, auth: Option<Checker>, segments: seq<Segment>, k: nat): seq<Node>
    requires k <= |segments|
  {
    if k == 0 then [root]
    else Expand(s, Walk(env, s, root, auth, segments, k - 1), Matching(env, s, auth, segments[k - 1], k == |segments|))
  }

  ghost function Evaluate(env: Engine, s: Snap, root: Node, auth: Option<Checker>, segments: seq<Segment>): seq<Node> {
    Walk(env, s, root, auth, segments, |segments|)
  }

  lemma {:induction false} KeepMembers(xs: seq<Node>, p: set<Node>)
    ensures forall n :: n in KeepNodes(xs, p) <==> n in xs && n in p
  {
    if xs != [] {
      var n := |xs| - 1;
      KeepMembers(xs[..n], p);
      assert forall x :: x in xs <==> x in xs[..n] || x == xs[n];
    }
  }

  lemma {:induction false} ExpandMembers(s: Snap, ns: seq<Node>, p: set<Node>)
    ensures forall c :: c in Expand(s, ns, p) <==> c in p && HasOwner(s, ns, c)
  {
    if ns != [] {
      var k := |ns| - 1;
      var init, last := ns[..k], ns[k];
      ExpandMembers(s, init, p);
      KeepMembers(KidsOf(s, last), p);
      assert ns == init + [last];
      forall c
        ensures HasOwner(s, ns, c) <==> HasOwner(s, init, c) || c in KidsOf(s, last)
      {
        if c in KidsOf(s, last) {
          assert last in ns;
        }
      }
    }
  }

  ghost predicate HasOwner(s: Snap, ns: seq<Node>, c: Node) {
    exists n :: n in ns && c in KidsOf(s, n)
  }

  // --- what evaluation means ----------------------------------------------------------------

  /** The nodes k levels below root, in document order. */
  ghost function Level(s: Snap, root: Node, k: nat): seq<Node> {
    if k == 0 then [root] else Expand(s, Level(s, root, k - 1), s.Keys)
  }

  /** n and its ancestors match the first k segments, n the last of them. */
  ghost predicate MatchesUpTo(env: Engine, s: Snap, auth: Option<Checker>, segments: seq<Segment>, k: nat, n: Node)
    requires k <= |segments|
  {
    k == 0 ||
    (Matches(env, s, auth, segments[k - 1], k == |segments|, n)
     && s[n].parent != null && MatchesUpTo(env, s, auth, segments, k - 1, s[n].parent))
  }

  ghost function UpTo(env: Engine, s: Snap, auth: Option<Checker>, segments: seq<Segment>, k: nat): set<Node>
    requires k <= |segments|
  {
    set n | n in s && MatchesUpTo(env, s, auth, segments, k, n)
  }

  lemma {:induction false} KeepConcat(xs: seq<Node>, ys: seq<Node>, p: set<Node>)
    ensures KeepNodes(xs + ys, p) == KeepNodes(xs, p) + KeepNodes(ys, p)
  {
    if ys == [] {
      assert xs + ys == xs;
    } else {
      var n := |ys| - 1;
      assert (xs + ys)[..|xs + ys| - 1] == xs + ys[..n];
      KeepConcat(xs, ys[..n], p);
    }
  }

  lemma {:induction false} KeepAgree(xs: seq<Node>, p: set<Node>, q: set<Node>)
    requires forall n :: n in xs ==> (n in p <==> n in q)
    ensures KeepNodes(xs, p) == KeepNodes(xs, q)
  {
    if xs != [] {
      KeepAgree(xs[..|xs| - 1], p, q);
    }
  }

  lemma {:induction false} KeepAll(xs: seq<Node>, all: set<Node>)
    requires forall n :: n in xs ==> n in all
    ensures KeepNodes(xs, all) == xs
  {
    if xs != [] {
      var init, last := xs[..|xs| - 1], xs[|xs| - 1];
      assert xs == init + [last] && last in xs;
      KeepAll(init, all);
      KeepSnoc(init, last, all);
      hide KeepNodes;
    }
  }

  lemma ExpandSnoc(s: Snap, ns: seq<Node>, last: Node, p: set<Node>)
    ensures Expand(s, ns + [last], p) == Expand(s, ns, p) + KeepNodes(KidsOf(s, last), p)
  {
    assert (ns + [last])[..|ns|] == ns;
  }

  lemma KeepSnoc(ns: seq<Node>, last: Node, p: set<Node>)
    ensures KeepNodes(ns + [last], p) == if last in p then KeepNodes(ns, p) + [last] else KeepNodes(ns, p)
  {
    assert (ns + [last])[..|ns|] == ns;
  }

  /** A child of n is in r just when n is in p and the child in q. */
  ghost predicate KidsAgree(s: Snap, n: Node, p: set<Node>, q: set<Node>, r: set<Node>) {
    forall c :: c in KidsOf(s, n) ==> (c in r <==> n in p && c in q)
  }

  /** Expanding the kept nodes of a list is keeping from the whole list's children. */
  lemma {:induction false} ExpandKept(s: Snap, root: Node, ns: seq<Node>, p: set<Node>, q: set<Node>, r: set<Node>)
    requires Inv(s, root) && forall i :: 0 <= i < |ns| ==> KidsAgree(s, ns[i], p, q, r)
    ensures Expand(s, KeepNodes(ns, p), q) == KeepNodes(Expand(s, ns, s.Keys), r)
  {
    hide Inv, Expand, KeepNodes, KidsAgree;
    if ns == [] {
      ExpandKeptNil(s, p, q, r);
    } else {
      var k := |ns| - 1;
      ExpandKept(s, root, ns[..k], p, q, r);
      ExpandKeptStep(s, root, ns[..k], ns[k], p, q, r);
      assert ns[..k] + [ns[k]] == ns;
    }
  }

  lemma ExpandKeptNil(s: Snap, p: set<Node>, q: set<Node>, r: set<Node>)
    ensures Expand(s, KeepNodes([], p), q) == KeepNodes(Expand(s, [], s.Keys), r)
  {
  }

  lemma ExpandKeptStep(s: Snap, root: Node, init: seq<Node>, last: Node, p: set<Node>, q: set<Node>, r: set<Node>)
    requires Inv(s, root) && KidsAgree(s, last, p, q, r)
    requires Expand(s, KeepNodes(init, p), q) == KeepNodes(Expand(s, init, s.Keys), r)
    ensures Expand(s, KeepNodes(init + [last], p), q) == KeepNodes(Expand(s, init + [last], s.Keys), r)
  {
    hide Expand, KeepNodes;
    var kids := KidsOf(s, last);
    KidsInside(s, root, last);
    hide Inv;
    KeepAll(kids, s.Keys);
    ExpandSnoc(s, init, last, s.Keys);
    KeepConcat(Expand(s, init, s.Keys), kids, r);
    KeepIf(kids, last in p, q, r);
    KeepSnoc(init, last, p);
    ExpandSnoc(s, KeepNodes(init, p), last, q);
  }

  lemma KidsInside(s: Snap, root: Node, n: Node)
    requires Inv(s, root)
    ensures forall c :: c in KidsOf(s, n) ==> c in s.Keys
  {
  }

  lemma KeepIf(kids: seq<Node>, keep: bool, q: set<Node>, r: set<Node>)
    requires forall c :: c in kids ==> (c in r <==> keep && c in q)
    ensures KeepNodes(kids, r) == if keep then KeepNodes(kids, q) else []
  {
    if keep {
      KeepAgree(kids, q, r);
    } else {
      KeepMembers(kids, r);
      HasMember(KeepNodes(kids, r));
    }
  }

  /**
   * evaluateAs, with or without a checker, is exactly the nodes one level down per
   * segment whose path from the root matches the segments, in document order.
   */
  lemma {:induction false} WalkIsLevelFiltered(env: Engine, s: Snap, root: Node, auth: Option<Checker>,
                                               segments: seq<Segment>, k: nat)
    requires Inv(s, root) && k <= |segments|
    ensures Walk(env, s, root, auth, segments, k)
         == KeepNodes(Level(s, root, k), UpTo(env, s, auth, segments, k))
  {
    hide Matches, Level, Expand, KeepNodes, Walk, Inv, UpTo, Matching, KidsAgree;
    if k == 0 {
      WalkStart(env, s, root, auth, segments);
    } else {
      WalkIsLevelFiltered(env, s, root, auth, segments, k - 1);
      var level, above := Level(s, root, k - 1), UpTo(env, s, auth, segments, k - 1);
      var q := Matching(env, s, auth, segments[k - 1], k == |segments|);
      calc {
        Walk(env, s, root, auth, segments, k);
        { WalkStep(env, s, root, auth, segments, k); }
        Expand(s, KeepNodes(level, above), q);
        { forall i | 0 <= i < |level|
            ensures KidsAgree(s, level[i], above, q, UpTo(env, s, auth, segments, k))
          {
            UpToStep(env, s, root, auth, segments, k, level[i]);
          }
          ExpandKept(s, root, level, above, q, UpTo(env, s, auth, segments, k)); }
        KeepNodes(Expand(s, level, s.Keys), UpTo(env, s, auth, segments, k));
        { LevelStep(s, root, k); }
        KeepNodes(Level(s, root, k), UpTo(env, s, auth, segments, k));
      }
    }
  }

  lemma WalkStart(env: Engine, s: Snap, root: Node, auth: Option<Checker>, segments: seq<Segment>)
    requires Inv(s, root)
    ensures Walk(env, s, root, auth, segments, 0) == KeepNodes(Level(s, root, 0), UpTo(env, s, auth, segments, 0))
  {
    hide Matches, Expand, Closed, Owned, Acyclic, Distinct;
    KeepAll([root], UpTo(env, s, auth, segments, 0));
  }

  lemma UpToStep(env: Engine, s: Snap, root: Node, auth: Option<Checker>, segments: seq<Segment>, k: nat, n: Node)
    requires Inv(s, root) && 0 < k <= |segments|
    ensures KidsAgree(s, n, UpTo(env, s, auth, segments, k - 1), Matching(env, s, auth, segments[k - 1], k == |segments|),
                      UpTo(env, s, auth, segments, k))
  {
    hide Matches;
    forall c | c in KidsOf(s, n)
      ensures c in UpTo(env, s, auth, segments, k) <==>
              n in UpTo(env, s, auth, segments, k - 1) && c in Matching(env, s, auth, segments[k - 1], k == |segments|)
    {
      OwnedBy(s, root, n, c);
    }
  }

  lemma WalkStep(env: Engine, s: Snap, root: Node, auth: Option<Checker>, segments: seq<Segment>, k: nat)
    requires 0 < k <= |segments|
    ensures Walk(env, s, root, auth, segments, k)
         == Expand(s, Walk(env, s, root, auth, segments, k - 1), Matching(env, s, auth, segments[k - 1], k == |segments|))
  {
  }

  lemma OwnedBy(s: Snap, root: Node, n: Node, c: Node)
    requires Inv(s, root) && c in KidsOf(s, n)
    ensures n in s && c in s && s[c].parent == n
  {
  }

  lemma LevelStep(s: Snap, root: Node, k: nat)
    requires k > 0
    ensures Level(s, root, k) == Expand(s, Level(s, root, k - 1), s.Keys)
  {
  }

  lemma {:induction false} NoDupExpand(s: Snap, root: Node, ns: seq<Node>)
    requires Inv(s, root) && NoDup(ns)
    ensures NoDup(Expand(s, ns, s.Keys))
  {
    if ns != [] {
      hide Inv, Expand, KeepNodes;
      var k := |ns| - 1;
      var init, last := ns[..k], ns[k];
      NoDupExpand(s, root, init);
      assert ns == init + [last];
      LastApart(ns);
      NoDupExpandStep(s, root, init, last);
    }
  }

  lemma NoDupExpandStep(s: Snap, root: Node, init: seq<Node>, last: Node)
    requires Inv(s, root) && last !in init
    requires NoDup(Expand(s, init, s.Keys))
    ensures NoDup(Expand(s, init + [last], s.Keys))
  {
    hide Expand, KeepNodes;
    var before, kids := Expand(s, init, s.Keys), KidsOf(s, last);
    KidsInside(s, root, last);
    KeepAll(kids, s.Keys);
    ExpandSnoc(s, init, last, s.Keys);
    ExpandMembers(s, init, s.Keys);
    assert NoDup(kids);
    hide NoDup;
    forall c | c in before
      ensures c !in kids
    {
      OwnerOf(s, init, c);
      var n :| n in init && c in KidsOf(s, n);
      OwnedBy(s, root, n, c);
    }
    NoDupConcat(before, kids);
  }

  lemma OwnerOf(s: Snap, ns: seq<Node>, c: Node)
    requires c in Expand(s, ns, s.Keys)
    ensures HasOwner(s, ns, c)
  {
    ExpandMembers(s, ns, s.Keys);
  }

  lemma LastApart<T>(xs: seq<T>)
    requires NoDup(xs) && xs != []
    ensures xs[|xs| - 1] !in xs[..|xs| - 1]
  {
  }

  lemma NoDupConcat<T>(xs: seq<T>, ys: seq<T>)
    requires NoDup(xs) && NoDup(ys) && forall x :: x in xs ==> x !in ys
    ensures NoDup(xs + ys)
  {
    var zs := xs + ys;
    forall i, j | 0 <= i < j < |zs|
      ensures zs[i] != zs[j]
    {
      if i < |xs| <= j {
        assert xs[i] in xs && ys[j - |xs|] in ys;
      }
    }
  }

  /** Level k holds each node reachable at height k once, and nothing else. */
  lemma {:induction false} LevelSpec(s: Snap, root: Node, k: nat)
    requires Inv(s, root)
    ensures NoDup(Level(s, root, k))
    ensures forall n :: n in Level(s, root, k) <==> n in s && Grounded(s, n) && Below(s, root, n) && Height(s, n) == k
  {
    if k == 0 {
      HeightStep(s, root);
      BelowSelf(s, root);
      forall n | n in s && Below(s, root, n) && Height(s, n) == 0
        ensures n == root
      {
        HeightStep(s, n);
        if n != root {
          BelowParent(s, root, root, n);
        }
      }
    } else {
      hide Level, Expand;
      LevelSpec(s, root, k - 1);
      NoDupExpand(s, root, Level(s, root, k - 1));
      LevelStep(s, root, k);
      forall n
        ensures n in Level(s, root, k) <==> n in s && Grounded(s, n) && Below(s, root, n) && Height(s, n) == k
      {
        LevelMember(s, root, k, n);
      }
    }
  }

  lemma LevelMember(s: Snap, root: Node, k: nat, n: Node)
    requires Inv(s, root) && k > 0
    requires forall m :: m in Level(s, root, k - 1) <==> m in s && Grounded(s, m) && Below(s, root, m) && Height(s, m) == k - 1
    ensures n in Level(s, root, k) <==> n in s && Grounded(s, n) && Below(s, root, n) && Height(s, n) == k
  {
    hide Level, Expand, Below, Height;
    var above := Level(s, root, k - 1);
    LevelStep(s, root, k);
    ExpandMembers(s, above, s.Keys);
    if n in s {
      HeightStep(s, n);
      if n == root {
        assert forall m :: m in above ==> n !in KidsOf(s, m);
      } else {
        BelowParent(s, root, root, n);
        assert HasOwner(s, above, n) <==>
               s[n].parent != null && s[n].parent in above && n in s[s[n].parent].children by {
          if s[n].parent != null && s[n].parent in above && n in s[s[n].parent].children {
            assert n in KidsOf(s, s[n].parent);
          }
        }
      }
    }
  }

  /** Evaluation returns a node exactly when it lies one level below the root per segment and its path matches them. */
  lemma EvaluateMember(env: Engine, s: Snap, root: Node, auth: Option<Checker>, segments: seq<Segment>, n: Node)
    requires Inv(s, root)
    ensures n in Evaluate(env, s, root, auth, segments) <==>
              && n in s && Grounded(s, n) && Below(s, root, n) && Height(s, n) == |segments|
              && MatchesUpTo(env, s, auth, segments, |segments|, n)
  {
    hide Walk, Level, Inv, MatchesUpTo, NoDup, Below, Height, KeepNodes;
    var k := |segments|;
    WalkIsLevelFiltered(env, s, root, auth, segments, k);
    LevelSpec(s, root, k);
    KeepMembers(Level(s, root, k), UpTo(env, s, auth, segments, k));
  }

  /** Evaluation returns no node twice. */
  lemma EvaluateHasNoRepeats(env: Engine, s: Snap, root: Node, auth: Option<Checker>, segments: seq<Segment>)
    requires Inv(s, root)
    ensures NoDup(Evaluate(env, s, root, auth, segments))
  {
    hide Walk, Level, Inv, MatchesUpTo, NoDup, KeepNodes;
    var k := |segments|;
    WalkIsLevelFiltered(env, s, root, auth, segments, k);
    LevelSpec(s, root, k);
    NoDupKept(Level(s, root, k), UpTo(env, s, auth, segments, k));
  }

  lemma {:induction false} NoDupKept(xs: seq<Node>, p: set<Node>)
    requires NoDup(xs)
    ensures NoDup(KeepNodes(xs, p))
  {
    if xs != [] {
      NoDupKept(xs[..|xs| - 1], p);
      KeepMembers(xs[..|xs| - 1], p);
      LastApart(xs);
    }
  }

  // --- what a Get returns -------------------------------------------------------------------

  /** pruneVisible: n's subtree through child lists, less whatever lies at or below a node the caller may not read. */
  ghost function View(s: Snap, root: Node, auth: Option<Checker>, n: Node): Rose
    requires Inv(s, root) && n in s
    decreases Subtree(s, n), 1, 0
  {
    Rose(n.key, s[n].value, Views(s, root, auth, n, s[n].children))
  }

  /** The views of those of kids, all children of n, that may be read. */
  ghost function Views(s: Snap, root: Node, auth: Option<Checker>, n: Node, kids: seq<Node>): seq<Rose>
    requires Inv(s, root) && n in s && forall c :: c in kids ==> c in s[n].children
    decreases Subtree(s, n), 0, |kids|
  {
    if kids == [] then []
    else
      var k := |kids| - 1;
      assert kids[k] in kids;
      SubtreeShrinks(s, root, n, kids[k]);
      Views(s, root, auth, n, kids[..k])
        + (if May(s, auth, OpRead, kids[k]) then [View(s, root, auth, kids[k])] else [])
  }

  ghost function ViewsOf(s: Snap, root: Node, auth: Option<Checker>, ns: seq<Node>): seq<Rose>
    requires Inv(s, root)
  {
    if ns == [] then []
    else
      var k := |ns| - 1;
      ViewsOf(s, root, auth, ns[..k]) + (if ns[k] in s then [View(s, root, auth, ns[k])] else [])
  }

  datatype GetError = BadExpression(error: ExprError) | ResumeOutOfRange

  datatype GetResult = GetResult(forest: seq<Rose>, resume: int, base: Bytes)

  /** GetFullAs, up to flattening: the visible forest, where to resume in its array, and the base. */
  ghost function GetFull(env: Engine, s: Snap, root: Node, auth: Option<Checker>,
                         expression: Bytes): Result<GetResult, GetError>
    requires Inv(s, root)
  {
    var (base, resume) := SplitResumeSuffix(expression);
    var parsed := Parse(env.re, base);
    if parsed.Err? then Err(BadExpression(parsed.error))
    else
      var forest := ViewsOf(s, root, auth, Evaluate(env, s, root, auth, parsed.value));
      if resume < 0 || resume > Size(forest) then Err(ResumeOutOfRange)
      else Ok(GetResult(forest, resume, base))
  }

  // --- reads depend only on readable values -----------------------------------------------

  /** The same tree, except for values the caller may not read. */
  ghost predicate SameForReader(s: Snap, s': Snap, auth: Option<Checker>) {
    && s'.Keys == s.Keys
    && (forall n :: n in s ==> s'[n].parent == s[n].parent && s'[n].children == s[n].children)
    && (forall n :: n in s && Grounded(s, n) && May(s, auth, OpRead, n) ==> s'[n].value == s[n].value)
  }

  lemma MatchesSame(env: Engine, s: Snap, s': Snap, auth: Option<Checker>, seg: Segment, last: bool, n: Node)
    requires SameForReader(s, s', auth)
    ensures Matches(env, s, auth, seg, last, n) ==> Matches(env, s', auth, seg, last, n)
  {
    if Matches(env, s, auth, seg, last, n) {
      KeyPathSame(s, s', n);
    }
  }

  lemma SameForReaderBack(s: Snap, s': Snap, root: Node, auth: Option<Checker>)
    requires Inv(s, root) && SameForReader(s, s', auth)
    ensures Inv(s', root) && SameForReader(s', s, auth)
  {
    GroundedSame(s, s');
    forall n | n in s'
      ensures May(s', auth, OpRead, n) == May(s, auth, OpRead, n)
    {
      KeyPathSame(s, s', n);
    }
  }

  lemma MatchingSame(env: Engine, s: Snap, s': Snap, root: Node, auth: Option<Checker>, seg: Segment, last: bool)
    requires Inv(s, root) && SameForReader(s, s', auth)
    ensures Matching(env, s, auth, seg, last) == Matching(env, s', auth, seg, last)
  {
    SameForReaderBack(s, s', root, auth);
    hide Matches, Inv, SameForReader;
    forall n
      ensures Matches(env, s, auth, seg, last, n) <==> Matches(env, s', auth, seg, last, n)
    {
      MatchesSame(env, s, s', auth, seg, last, n);
      MatchesSame(env, s', s, auth, seg, last, n);
    }
    assert s.Keys == s'.Keys by { KeysSame(s, s', auth); }
  }

  lemma KeysSame(s: Snap, s': Snap, auth: Option<Checker>)
    requires SameForReader(s, s', auth)
    ensures s.Keys == s'.Keys
    ensures forall n :: KidsOf(s, n) == KidsOf(s', n)
  {
  }

  lemma {:induction false} ExpandSame(s: Snap, s': Snap, ns: seq<Node>, p: set<Node>)
    requires forall n :: KidsOf(s, n) == KidsOf(s', n)
    ensures Expand(s, ns, p) == Expand(s', ns, p)
  {
    if ns != [] {
      ExpandSame(s, s', ns[..|ns| - 1], p);
    }
  }

  lemma {:induction false} WalkSame(env: Engine, s: Snap, s': Snap, root: Node, auth: Option<Checker>,
                                    segments: seq<Segment>, k: nat)
    requires Inv(s, root) && SameForReader(s, s', auth) && k <= |segments|
    ensures Walk(env, s, root, auth, segments, k) == Walk(env, s', root, auth, segments, k)
  {
    if k > 0 {
      hide Inv, SameForReader, Matching, Expand;
      WalkSame(env, s, s', root, auth, segments, k - 1);
      MatchingSame(env, s, s', root, auth, segments[k - 1], k == |segments|);
      KeysSame(s, s', auth);
      ExpandSame(s, s', Walk(env, s, root, auth, segments, k - 1), Matching(env, s, auth, segments[k - 1], k == |segments|));
    }
  }

  lemma {:induction false} ViewSame(s: Snap, s': Snap, root: Node, auth: Option<Checker>, n: Node)
    requires Inv(s, root) && Inv(s', root) && SameForReader(s, s', auth) && n in s && May(s, auth, OpRead, n)
    ensures View(s, root, auth, n) == View(s', root, auth, n)
    decreases Subtree(s, n), 1, 0
  {
    ViewsSame(s, s', root, auth, n, s[n].children);
  }

  lemma {:induction false} ViewsSame(s: Snap, s': Snap, root: Node, auth: Option<Checker>, n: Node, kids: seq<Node>)
    requires Inv(s, root) && Inv(s', root) && SameForReader(s, s', auth) && n in s
    requires forall c :: c in kids ==> c in s[n].children
    ensures Views(s, root, auth, n, kids) == Views(s', root, auth, n, kids)
    decreases Subtree(s, n), 0, |kids|
  {
    hide View, May, Subtree, Inv, SameForReader;
    if kids != [] {
      var k := |kids| - 1;
      assert kids[k] in kids;
      SubtreeShrinks(s, root, n, kids[k]);
      ViewsSame(s, s', root, auth, n, kids[..k]);
      ChildMaySame(s, s', root, auth, n, kids[k]);
      if May(s, auth, OpRead, kids[k]) {
        ViewSame(s, s', root, auth, kids[k]);
      }
    }
  }

  lemma ChildMaySame(s: Snap, s': Snap, root: Node, auth: Option<Checker>, n: Node, c: Node)
    requires Inv(s, root) && SameForReader(s, s', auth) && c in KidsOf(s, n)
    ensures c in s && c in s' && Grounded(s, c) && Grounded(s', c) && May(s', auth, OpRead, c) == May(s, auth, OpRead, c)
    ensures n in s' && s'[n].children == s[n].children
  {
    hide May;
    MaySame(s, s', auth, OpRead, c);
  }

  lemma MaySame(s: Snap, s': Snap, auth: Option<Checker>, op: Op, n: Node)
    requires SameParents(s, s') && Grounded(s, n)
    ensures Grounded(s', n) && May(s', auth, op, n) == May(s, auth, op, n)
  {
    KeyPathSame(s, s', n);
  }

  lemma {:induction false} ViewsOfSame(s: Snap, s': Snap, root: Node, auth: Option<Checker>, ns: seq<Node>)
    requires Inv(s, root) && Inv(s', root) && SameForReader(s, s', auth)
    requires forall n :: n in ns ==> n in s && May(s, auth, OpRead, n)
    ensures ViewsOf(s, root, auth, ns) == ViewsOf(s', root, auth, ns)
  {
    if ns != [] {
      var k := |ns| - 1;
      assert ns[k] in ns;
      ViewsOfSame(s, s', root, auth, ns[..k]);
      ViewSame(s, s', root, auth, ns[k]);
    }
  }

  /** Every match may be read. */
  lemma MatchesReadable(env: Engine, s: Snap, root: Node, auth: Option<Checker>, segments: seq<Segment>, n: Node)
    requires Inv(s, root) && segments != [] && n in Evaluate(env, s, root, auth, segments)
    ensures n in s && May(s, auth, OpRead, n)
  {
    EvaluateMember(env, s, root, auth, segments, n);
  }

  /**
   * A Get answers the same on two trees that differ only in values the caller may
   * not read, whatever the expression: no value predicate can tell them apart.
   */
  lemma GetRevealsOnlyReadable(env: Engine, s: Snap, s': Snap, root: Node, auth: Option<Checker>, expression: Bytes)
    requires Inv(s, root) && SameForReader(s, s', auth)
    ensures Inv(s', root)
    ensures GetFull(env, s, root, auth, expression) == GetFull(env, s', root, auth, expression)
  {
    SameForReaderBack(s, s', root, auth);
    var parsed := Parse(env.re, SplitResumeSuffix(expression).0);
    if parsed.Ok? {
      hide Inv, SameForReader, SplitResumeSuffix, Parse;
      var segments := parsed.value;
      var ns := Evaluate(env, s, root, auth, segments);
      WalkSame(env, s, s', root, auth, segments, |segments|);
      ParsedNotEmpty(env.re, SplitResumeSuffix(expression).0);
      forall n | n in ns
        ensures n in s && Grounded(s, n) && May(s, auth, OpRead, n)
      {
        MatchesReadable(env, s, root, auth, segments, n);
      }
      ViewsOfSame(s, s', root, auth, ns);
    }
  }

  lemma ParsedNotEmpty(re: Regexps, expression: Bytes)
    ensures Parse(re, expression).Ok? ==> Parse(re, expression).value != []
  {
  }
}
