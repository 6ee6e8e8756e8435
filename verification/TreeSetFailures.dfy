/**
 * Requests that the code accepts and that do not do what its comments promise, with
 * their edits written out: planned, applied and, where they conflict, rolled back as
 * SetAs does it.
 */
module TreeSetFailures {
  import opened Basics
  import opened WireTypes
  import opened Expression
  import opened Authz
  import opened TreeState
  import opened TreeRead
  import opened TreeSet
  import opened TreeSetSafety
  import opened TreePlan
  import opened UndoLog

  // --- the root ---------------------------------------------------------------------------

  /** No expression leads to the root. */
  lemma ResolvedIsNotRoot(env: Engine, s: Snap, root: Node, auth: Option<Checker>, expr: Bytes)
    requires Inv(s, root) && ResolveOne(env, s, root, auth, expr).Ok?
    ensures ResolveOne(env, s, root, auth, expr).value != root
  {
    hide Evaluate, Inv, Below, Parse;
    ParsedNotEmpty(env.re, expr);
    RootHasNoParent(s, root);
    EvaluateMember(env, s, root, auth, Parse(env.re, expr).value, root);
    HeightStep(s, root);
  }

  /** So planning never hands one of the pointers of an edit the root, nor a target. */
  lemma PlansSpareTheRoot(env: Engine, s: Snap, root: Node, staging: Node?, auth: Option<Checker>, e: SetEdit)
    requires Inv(s, root) && PlanEdit(env, s, root, staging, auth, e).Ok?
    ensures var p := PlanEdit(env, s, root, staging, auth, e).value;
            root !in p.targets && p.first != Some(root) && p.next != Some(root) && p.newParent != Some(root)
  {
    hide Evaluate, ReachSet, DeleteAllowed, May, Subtree, ResolveOne, Parse, DroppedByFirst, DroppedByNext, Inv, Below;
    var segments := Parse(env.re, e.target).value;
    ParsedNotEmpty(env.re, e.target);
    RootHasNoParent(s, root);
    EvaluateMember(env, s, root, auth, segments, root);
    HeightStep(s, root);
    PointerIsNotRoot(env, s, root, auth, e.newFirstChild);
    PointerIsNotRoot(env, s, root, auth, e.newNextSibling);
    if e.newParent.Some? && ResolveOne(env, s, root, auth, e.newParent.value).Ok? {
      ResolvedIsNotRoot(env, s, root, auth, e.newParent.value);
    }
  }

  lemma PointerIsNotRoot(env: Engine, s: Snap, root: Node, auth: Option<Checker>, p: Option<NodePointer>)
    requires Inv(s, root)
    ensures p.Some? ==> ResolvePointer(env, s, root, auth, p.value) != Ok(root)
  {
    hide ResolveOne, Inv;
    if p.Some? && p.value.AbsolutePointer? && ResolveOne(env, s, root, auth, p.value.expr).Ok? {
      ResolvedIsNotRoot(env, s, root, auth, p.value.expr);
    }
  }

  // --- a tree to fail on -------------------------------------------------------------------

  /** Every pattern compiles, and matches itself alone. */
  function Literal(): Engine {
    Engine(Regexps(_ => true, (pattern, text) => pattern == text), _ => [])
  }

  /** A node p below the root with two children x and y, all four with keys of their own. */
  ghost predicate Setting(s: Snap, root: Node, p: Node, x: Node, y: Node, v: NodeValue) {
    && root != p && root != x && root != y && p != x && p != y && x != y
    && p.key != [] && x.key != [] && y.key != [] && x.key != y.key
    && s == map[root := Rec(v, null, [p], 0), p := Rec(v, root, [x, y], 1), x := Rec(v, p, [], 2), y := Rec(v, p, [], 3)]
  }

  function Named(n: Node): Segment {
    Segment(n.key, None)
  }

  /** The expression of the keys of ns, one below the other. */
  function Path(ns: seq<Node>): Bytes
    requires ns != []
  {
    Join(WriteSegments(seq(|ns|, i requires 0 <= i < |ns| => Named(ns[i]))), SLASH)
  }

  lemma SettingKeepsInv(s: Snap, root: Node, p: Node, x: Node, y: Node, v: NodeValue)
    requires Setting(s, root, p, x, y, v)
    ensures Inv(s, root)
  {
    assert Climbs(s, root, 0) && Climbs(s, p, 1) && Climbs(s, x, 2) && Climbs(s, y, 2);
  }

  lemma SettingFields(s: Snap, root: Node, p: Node, x: Node, y: Node, v: NodeValue)
    requires Setting(s, root, p, x, y, v)
    ensures s.Keys == {root, p, x, y}
    ensures KidsOf(s, root) == [p] && KidsOf(s, p) == [x, y] && KidsOf(s, x) == [] && KidsOf(s, y) == []
    ensures ParentOf(s, root) == null && ParentOf(s, p) == root && ParentOf(s, x) == p && ParentOf(s, y) == p
    ensures ValueOf(s, x) == v
  {
  }

  /** In that tree each node is below its ancestors and below nothing else. */
  lemma SettingSubtrees(s: Snap, root: Node, p: Node, x: Node, y: Node, v: NodeValue)
    requires Setting(s, root, p, x, y, v)
    ensures Inv(s, root) && Grounded(s, p) && Grounded(s, x) && Grounded(s, y)
    ensures Descends(s, p, x) && Descends(s, p, y)
    ensures Subtree(s, x) == {x} && Subtree(s, y) == {y}
  {
    SettingKeepsInv(s, root, p, x, y, v);
    HeightStep(s, root);
    HeightStep(s, p);
    HeightStep(s, x);
    HeightStep(s, y);
    assert !Descends(s, x, root) && !Descends(s, y, root);
    assert !Descends(s, x, p) && !Descends(s, y, p);
    assert !Descends(s, x, y) && !Descends(s, y, x) && !Descends(s, x, x) && !Descends(s, y, y);
  }

  lemma PathParses(ns: seq<Node>)
    requires ns != [] && forall n :: n in ns ==> n.key != []
    ensures Parse(Literal().re, Path(ns)) == Ok(seq(|ns|, i requires 0 <= i < |ns| => Named(ns[i])))
  {
    hide Parse, Join, WriteSegments;
    WrittenExpressionParses(Literal().re, seq(|ns|, i requires 0 <= i < |ns| => Named(ns[i])));
  }

  lemma OneStep(s: Snap, n: Node, kids: seq<Node>, p: set<Node>)
    requires KidsOf(s, n) == kids
    ensures Expand(s, [n], p) == KeepNodes(kids, p)
  {
    assert [n][..0] == [];
  }

  lemma KeepTwo(x: Node, y: Node, p: set<Node>)
    ensures KeepNodes([x], p) == if x in p then [x] else []
    ensures KeepNodes([x, y], p) == (if x in p then [x] else []) + (if y in p then [y] else [])
  {
    assert [x][..0] == [] && [x, y][..1] == [x];
  }

  /** The paths of p, x and y lead to them. */
  lemma PathsLead(s: Snap, root: Node, p: Node, x: Node, y: Node, v: NodeValue)
    requires Setting(s, root, p, x, y, v)
    ensures var (env, none: Option<Checker>) := (Literal(), None);
            && Parse(env.re, Path([p, x])).Ok? && Parse(env.re, Path([p, y])).Ok?
            && Evaluate(env, s, root, none, Parse(env.re, Path([p, x])).value) == [x]
            && Evaluate(env, s, root, none, Parse(env.re, Path([p, y])).value) == [y]
            && ResolveOne(env, s, root, none, Path([p])) == Ok(p)
            && ResolveOne(env, s, root, none, Path([p, x])) == Ok(x)
            && ResolveOne(env, s, root, none, Path([p, y])) == Ok(y)
  {
    hide Path, Parse;
    PathParses([p]);
    PathParses([p, x]);
    PathParses([p, y]);
    OneLevel(s, root, p, x, y, v);
    TwoLevels(s, root, p, x, y, v, x);
    TwoLevels(s, root, p, x, y, v, y);
    hide Evaluate;
    assert seq(1, i requires 0 <= i < 1 => Named([p][i])) == [Named(p)];
    assert seq(2, i requires 0 <= i < 2 => Named([p, x][i])) == [Named(p), Named(x)];
    assert seq(2, i requires 0 <= i < 2 => Named([p, y][i])) == [Named(p), Named(y)];
  }

  lemma MatchesName(s: Snap, root: Node, n: Node, m: Node, last: bool)
    requires Inv(s, root) && m in s
    ensures m in Matching(Literal(), s, None, Named(n), last) <==> n.key == m.key
  {
    InvGrounds(s, root, m);
    hide Inv;
  }

  lemma OneLevel(s: Snap, root: Node, p: Node, x: Node, y: Node, v: NodeValue)
    requires Setting(s, root, p, x, y, v)
    ensures Evaluate(Literal(), s, root, None, [Named(p)]) == [p]
  {
    SettingKeepsInv(s, root, p, x, y, v);
    SettingFields(s, root, p, x, y, v);
    hide Inv, Setting, Matching, Expand, KeepNodes;
    MatchesName(s, root, p, p, true);
    var M := Matching(Literal(), s, None, Named(p), true);
    OneStep(s, root, [p], M);
    KeepTwo(p, p, M);
    assert Walk(Literal(), s, root, None, [Named(p)], 0) == [root];
  }

  lemma TwoLevels(s: Snap, root: Node, p: Node, x: Node, y: Node, v: NodeValue, n: Node)
    requires Setting(s, root, p, x, y, v) && (n == x || n == y)
    ensures Evaluate(Literal(), s, root, None, [Named(p), Named(n)]) == [n]
  {
    SettingKeepsInv(s, root, p, x, y, v);
    SettingFields(s, root, p, x, y, v);
    assert x.key != y.key;
    hide Inv, Setting, Matching, Expand, KeepNodes;
    MatchesName(s, root, p, p, false);
    MatchesName(s, root, n, x, true);
    MatchesName(s, root, n, y, true);
    var segments := [Named(p), Named(n)];
    var M, N := Matching(Literal(), s, None, Named(p), false), Matching(Literal(), s, None, Named(n), true);
    OneStep(s, root, [p], M);
    KeepTwo(p, p, M);
    OneStep(s, p, [x, y], N);
    KeepTwo(x, y, N);
    assert Walk(Literal(), s, root, None, segments, 0) == [root];
    assert Walk(Literal(), s, root, None, segments, 1) == [p];
  }

  // --- planning these edits ----------------------------------------------------------------

  function Edit(target: Bytes): SetEdit {
    SetEdit(target, None, None, None, None)
  }

  lemma PlanValue(s: Snap, root: Node, p: Node, x: Node, y: Node, v: NodeValue, w: NodeValue)
    requires Setting(s, root, p, x, y, v)
    ensures Inv(s, root)
    ensures PlanEdit(Literal(), s, root, p, None, Edit(Path([p, x])).(newValue := Some(w))) == Ok(Plan([x], Some(w), None, None, None))
  {
    SettingKeepsInv(s, root, p, x, y, v);
    PathsLead(s, root, p, x, y, v);
    hide Inv, Setting, Evaluate, Parse, Path, ResolveOne;
  }

  lemma PlanOfMove(env: Engine, s: Snap, root: Node, staging: Node, target: Bytes, n: Node, to: Node, toExpr: Bytes)
    requires Inv(s, root) && Parse(env.re, target).Ok? && Evaluate(env, s, root, None, Parse(env.re, target).value) == [n]
    requires Grounded(s, n) && Descends(s, staging, n)
    requires ResolveOne(env, s, root, None, toExpr) == Ok(to) && Acyclic(s) && to !in Subtree(s, n)
    ensures PlanEdit(env, s, root, staging, None, Edit(target).(newParent := Some(toExpr)))
         == Ok(Plan([n], None, None, None, Some(to)))
  {
    hide Inv, Evaluate, Parse, ResolveOne, Subtree, Descends, Grounded, Acyclic;
  }

  lemma PlanMove(s: Snap, root: Node, p: Node, x: Node, y: Node, v: NodeValue, n: Node, to: Node, toExpr: Bytes)
    requires Setting(s, root, p, x, y, v) && (n == x || n == y)
    requires ResolveOne(Literal(), s, root, None, toExpr) == Ok(to) && to != n
    ensures Inv(s, root)
    ensures PlanEdit(Literal(), s, root, p, None, Edit(Path([p, n])).(newParent := Some(toExpr)))
         == Ok(Plan([n], None, None, None, Some(to)))
  {
    hide Inv, Setting, Evaluate, Parse, Path, ResolveOne, Subtree, Descends, PlanEdit;
    SettingSubtrees(s, root, p, x, y, v);
    PathsLead(s, root, p, x, y, v);
    RootHasNoParent(s, root);
    PlanOfMove(Literal(), s, root, p, Path([p, n]), n, to, toExpr);
  }

  lemma PlanSelfChild(s: Snap, root: Node, p: Node, x: Node, y: Node, v: NodeValue)
    requires Setting(s, root, p, x, y, v)
    ensures Inv(s, root)
    ensures PlanEdit(Literal(), s, root, p, None, Edit(Path([p, x])).(newFirstChild := Some(AbsolutePointer(Path([p, x])))))
         == Ok(Plan([x], None, Some(x), None, None))
  {
    SettingKeepsInv(s, root, p, x, y, v);
    SettingFields(s, root, p, x, y, v);
    PathsLead(s, root, p, x, y, v);
    hide Inv, Setting, Evaluate, Parse, Path, ResolveOne;
    assert DroppedByFirst(s, x, x) == [];
  }

  lemma PlanNextIsY(s: Snap, root: Node, p: Node, x: Node, y: Node, v: NodeValue)
    requires Setting(s, root, p, x, y, v)
    ensures Inv(s, root)
    ensures PlanEdit(Literal(), s, root, p, None, Edit(Path([p, x])).(newNextSibling := Some(AbsolutePointer(Path([p, y])))))
         == Ok(Plan([x], None, None, Some(y), None))
  {
    SettingKeepsInv(s, root, p, x, y, v);
    SettingFields(s, root, p, x, y, v);
    PathsLead(s, root, p, x, y, v);
    hide Inv, Setting, Evaluate, Parse, Path, ResolveOne;
    assert IndexOf([x, y], x) == 0 && IndexOf([x, y], y) == 1;
    assert DroppedByNext(s, x, y) == [];
  }

  lemma PlanSnoc(env: Engine, s: Snap, root: Node, staging: Node?, auth: Option<Checker>, edits: seq<SetEdit>, e: SetEdit,
                 plans: seq<Plan>, p: Plan)
    requires Inv(s, root)
    requires PlanAll(env, s, root, staging, auth, edits) == Ok(plans) && PlanEdit(env, s, root, staging, auth, e) == Ok(p)
    ensures PlanAll(env, s, root, staging, auth, edits + [e]) == Ok(plans + [p])
    ensures PlanOk(s.Keys, p)
  {
    hide PlanEdit, Inv, Sound;
    PlanEditSound(env, s, root, staging, auth, e);
    PlanSoundOk(s, root, auth, p);
    assert (edits + [e])[..|edits|] == edits;
  }

  lemma PlanSoundOk(s: Snap, root: Node, auth: Option<Checker>, p: Plan)
    requires Inv(s, root) && Sound(s, root, auth, p)
    ensures PlanOk(s.Keys, p)
  {
    hide Inv;
  }

  lemma PlanNone(env: Engine, s: Snap, root: Node, staging: Node?, auth: Option<Checker>)
    requires Inv(s, root)
    ensures PlanAll(env, s, root, staging, auth, []) == Ok([])
  {
    hide PlanEdit, Inv;
  }

  lemma PlanTwo(env: Engine, s: Snap, root: Node, staging: Node?, auth: Option<Checker>, e: SetEdit, f: SetEdit,
                p: Plan, q: Plan)
    requires Inv(s, root)
    requires PlanEdit(env, s, root, staging, auth, e) == Ok(p) && PlanEdit(env, s, root, staging, auth, f) == Ok(q)
    ensures PlanAll(env, s, root, staging, auth, [e, f]) == Ok([p, q])
    ensures PlanOk(s.Keys, p) && PlanOk(s.Keys, q)
  {
    hide PlanEdit, Inv, PlanAll;
    PlanNone(env, s, root, staging, auth);
    assert [] + [e] == [e] && [] + [p] == [p] && [e] + [f] == [e, f] && [p] + [q] == [p, q];
    PlanSnoc(env, s, root, staging, auth, [], e, [], p);
    PlanSnoc(env, s, root, staging, auth, [e], f, [p], q);
  }

  lemma PlanThree(env: Engine, s: Snap, root: Node, staging: Node?, auth: Option<Checker>,
                  e: SetEdit, f: SetEdit, g: SetEdit, p: Plan, q: Plan, r: Plan)
    requires Inv(s, root)
    requires PlanEdit(env, s, root, staging, auth, e) == Ok(p) && PlanEdit(env, s, root, staging, auth, f) == Ok(q)
    requires PlanEdit(env, s, root, staging, auth, g) == Ok(r)
    ensures PlanAll(env, s, root, staging, auth, [e, f, g]) == Ok([p, q, r])
    ensures PlanOk(s.Keys, p) && PlanOk(s.Keys, q) && PlanOk(s.Keys, r)
  {
    hide PlanEdit, Inv, PlanAll;
    PlanTwo(env, s, root, staging, auth, e, f, p, q);
    PlanSnoc(env, s, root, staging, auth, [e, f], g, [p, q], r);
    assert [e, f] + [g] == [e, f, g] && [p, q] + [r] == [p, q, r];
  }

  // --- two moves ---------------------------------------------------------------------------

  /** Two newParent edits, each fine on its own: the request succeeds, and its two nodes are each other's parent. */
  lemma TwoMovesCloseACircle(s: Snap, root: Node, p: Node, x: Node, y: Node, v: NodeValue)
    requires Setting(s, root, p, x, y, v)
    ensures Inv(s, root)
    ensures var edits := [Edit(Path([p, x])).(newParent := Some(Path([p, y]))),
                          Edit(Path([p, y])).(newParent := Some(Path([p, x])))];
            var (s', r) := SetAs(Literal(), s, root, p, None, edits);
            r.Ok? && ParentOf(s', x) == y && ParentOf(s', y) == x && !Inv(s', root)
  {
    SettingFields(s, root, p, x, y, v);
    SettingSubtrees(s, root, p, x, y, v);
    PathsLead(s, root, p, x, y, v);
    hide Path, Setting, Evaluate, Parse, Inv, Subtree, PlanAll, PlanEdit, ApplyPlan, Apply, Moved, Descends;
    var e, f := Edit(Path([p, x])).(newParent := Some(Path([p, y]))), Edit(Path([p, y])).(newParent := Some(Path([p, x])));
    var first, second := Plan([x], None, None, None, Some(y)), Plan([y], None, None, None, Some(x));
    PlanMove(s, root, p, x, y, v, x, y, Path([p, y]));
    PlanMove(s, root, p, x, y, v, y, x, Path([p, x]));
    PlanTwo(Literal(), s, root, p, None, e, f, first, second);
    var s1 := Moved(s, x, y);
    MovedKeepsInv(s, root, x, y);
    MovedFields(s, root, x, y);
    MoveAlone(Start(s), x, y);
    assert y in s1[p].children;
    MoveAlone(ApplyPlan(Start(s), first).a, y, x);
    ApplyPair(s, first, second);
    Circle(s1, root, x, y);
    MovedFields(s1, root, y, x);
  }

  // --- a move and a relink ------------------------------------------------------------------

  /**
   * A node moved to the end of the list it is already in, and then relinked to a sibling
   * that lay after it before the request: the sibling now lies before it, and the list
   * comes out doubled.
   */
  lemma MoveThenRelinkDuplicates(s: Snap, root: Node, p: Node, x: Node, y: Node, v: NodeValue)
    requires Setting(s, root, p, x, y, v)
    ensures Inv(s, root) && Forward(s, x, y)
    ensures var edits := [Edit(Path([p, x])).(newParent := Some(Path([p]))),
                          Edit(Path([p, x])).(newNextSibling := Some(AbsolutePointer(Path([p, y]))))];
            var (s', r) := SetAs(Literal(), s, root, p, None, edits);
            r.Ok? && KidsOf(s', p) == [y, x, y, x]
  {
    SettingFields(s, root, p, x, y, v);
    SettingKeepsInv(s, root, p, x, y, v);
    PathsLead(s, root, p, x, y, v);
    MoveToEnd(s, root, p, x, y, v);
    hide Path, Setting, Evaluate, Parse, Inv, PlanAll, PlanEdit, ApplyPlan, Apply, Moved;
    var e, f := Edit(Path([p, x])).(newParent := Some(Path([p]))),
                Edit(Path([p, x])).(newNextSibling := Some(AbsolutePointer(Path([p, y]))));
    var first, second := Plan([x], None, None, None, Some(p)), Plan([x], None, None, Some(y), None);
    PlanMove(s, root, p, x, y, v, x, p, Path([p]));
    PlanNextIsY(s, root, p, x, y, v);
    PlanTwo(Literal(), s, root, p, None, e, f, first, second);
    MoveAlone(Start(s), x, p);
    RelinkBack(Moved(s, x, p), p, x, y);
    RelinkAlone(ApplyPlan(Start(s), first).a, x, y);
    ApplyPair(s, first, second);
  }

  lemma MoveToEnd(s: Snap, root: Node, p: Node, x: Node, y: Node, v: NodeValue)
    requires Setting(s, root, p, x, y, v)
    ensures var s' := Moved(s, x, p);
            p in s' && KidsOf(s', p) == [y, x] && ParentOf(s', x) == p && ParentOf(s', y) == p
    ensures Forward(s, x, y)
  {
    assert Remove([x, y], x) == [y];
    assert [y] + [x] == [y, x];
    assert IndexOf([x, y], x) == 0 && IndexOf([x, y], y) == 1;
    hide Remove, IndexOf;
  }

  lemma RelinkBack(s: Snap, p: Node, x: Node, y: Node)
    requires x != y && p in s && KidsOf(s, p) == [y, x] && ParentOf(s, x) == p && ParentOf(s, y) == p
    ensures RelinkNext(s, x, y).Ok? && KidsOf(RelinkNext(s, x, y).value, p) == [y, x, y, x]
  {
    assert IndexOf([y, x], x) == 1 && IndexOf([y, x], y) == 0;
    assert [y, x][..2] + [y, x][0..] == [y, x, y, x];
  }

  /** A plan that only relinks a next sibling. */
  lemma RelinkAlone(a: Applying, t: Node, next: Node?)
    requires RelinkNext(a.s, t, next).Ok?
    ensures var o := ApplyPlan(a, Plan([t], None, None, Some(next), None)); o.Done? && o.a.s == RelinkNext(a.s, t, next).value
  {
    hide RelinkNext;
  }

  // --- a conflict ----------------------------------------------------------------------------

  /**
   * A node written twice before a conflict, which an edit that names a node as its own
   * first child provokes: the request fails, and rollback leaves the node with the first
   * of the two new values, neither its old one nor its last.
   */
  lemma RollbackLeavesAnIntermediateValue(s: Snap, root: Node, p: Node, x: Node, y: Node,
                                          v: NodeValue, v1: NodeValue, v2: NodeValue)
    requires Setting(s, root, p, x, y, v) && v1 != v
    ensures Inv(s, root)
    ensures var edits := [Edit(Path([p, x])).(newValue := Some(v1)), Edit(Path([p, x])).(newValue := Some(v2)),
                          Edit(Path([p, x])).(newFirstChild := Some(AbsolutePointer(Path([p, x]))))];
            var (s', r) := SetAs(Literal(), s, root, p, None, edits);
            r == Err(NotAChild) && ValueOf(s, x) == v && ValueOf(s', x) == v1
  {
    SettingFields(s, root, p, x, y, v);
    SettingKeepsInv(s, root, p, x, y, v);
    hide Path, Setting, Inv, PlanAll, PlanEdit, ApplyPlan, Apply, WithValue, Rollback;
    var e, f, g := Edit(Path([p, x])).(newValue := Some(v1)), Edit(Path([p, x])).(newValue := Some(v2)),
                   Edit(Path([p, x])).(newFirstChild := Some(AbsolutePointer(Path([p, x]))));
    var p1, p2, p3 := Plan([x], Some(v1), None, None, None), Plan([x], Some(v2), None, None, None),
                      Plan([x], None, Some(x), None, None);
    PlanValue(s, root, p, x, y, v, v1);
    PlanValue(s, root, p, x, y, v, v2);
    PlanSelfChild(s, root, p, x, y, v);
    PlanThree(Literal(), s, root, p, None, e, f, g, p1, p2, p3);
    WriteAlone(Start(s), x, v1);
    WrittenValue(s, x, v1);
    var a := ApplyPlan(Start(s), p1).a;
    WriteAlone(a, x, v2);
    WrittenValue(a.s, x, v2);
    var b := ApplyPlan(a, p2).a;
    RefusedAlone(b, x);
    ApplyTriple(s, p1, p2, p3);
    assert [(x, v)] + [(x, v1)] == [(x, v), (x, v1)];
    TwoWritesRolledBack(ApplyPlan(b, p3).a, x, v, v1);
  }

  lemma WrittenValue(s: Snap, x: Node, v: NodeValue)
    requires x in s
    ensures var s' := WithValue(s, x, v); s'.Keys == s.Keys && ValueOf(s', x) == v && ParentOf(s', x) == ParentOf(s, x)
  {
  }

  lemma WriteAlone(a: Applying, x: Node, v: NodeValue)
    ensures var o := ApplyPlan(a, Plan([x], Some(v), None, None, None));
            && o.Done? && o.a.s == WithValue(a.s, x, v) && o.a.values == a.values + [(x, ValueOf(a.s, x))]
            && o.a.parents == a.parents && o.a.lists == a.lists
  {
    assert [x][..0] == [];
    assert WriteValues(a, [x][..0], v) == a;
  }

  /** A node is not its own child. */
  lemma RefusedAlone(a: Applying, x: Node)
    requires ParentOf(a.s, x) != x
    ensures var o := ApplyPlan(a, Plan([x], None, Some(x), None, None));
            o.Conflict? && o.error == NotAChild && o.a.s == a.s && o.a.values == a.values && o.a.parents == a.parents
  {
  }

  lemma TwoWritesRolledBack(a: Applying, x: Node, v: NodeValue, w: NodeValue)
    requires x in a.s && a.values == [(x, v), (x, w)] && a.parents == []
    ensures ValueOf(Rollback(a), x) == w
  {
    var one := [(x, v)];
    assert one[..0] == [] && a.values[..1] == one;
    assert SetValues(a.s, one) == WithValue(a.s, x, v);
    assert SetValues(a.s, a.values) == WithValue(WithValue(a.s, x, v), x, w);
  }

  lemma ApplyTriple(s: Snap, p: Plan, q: Plan, r: Plan)
    requires PlanOk(s.Keys, p) && PlanOk(s.Keys, q) && PlanOk(s.Keys, r)
    ensures PlansOk(s.Keys, [p, q, r])
    ensures ApplyPlan(Start(s), p).Done? && ApplyPlan(ApplyPlan(Start(s), p).a, q).Done? ==>
              Apply(s, [p, q, r]) == ApplyPlan(ApplyPlan(ApplyPlan(Start(s), p).a, q).a, r)
  {
    hide ApplyPlan;
    ApplyPair(s, p, q);
    assert [p, q, r][..2] == [p, q];
  }

  lemma Circle(s: Snap, root: Node, x: Node, y: Node)
    requires Inv(s, root) && x in s && y in s && s[x].parent == y && y != root
    ensures !Inv(Moved(s, y, x), root)
  {
    hide Moved;
    HeightStep(s, x);
    assert Descends(s, y, x);
    MovedKeepsInv(s, root, y, x);
  }

  lemma ApplyPair(s: Snap, p: Plan, q: Plan)
    requires PlanOk(s.Keys, p) && PlanOk(s.Keys, q)
    ensures PlansOk(s.Keys, [p, q])
    ensures ApplyPlan(Start(s), p).Done? ==> Apply(s, [p, q]) == ApplyPlan(ApplyPlan(Start(s), p).a, q)
  {
    hide ApplyPlan;
    assert [p, q][..1] == [p] && [p][..0] == [];
    assert PlansOk(s.Keys, [p]);
    assert Apply(s, [p]) == ApplyPlan(Start(s), p);
  }
}
