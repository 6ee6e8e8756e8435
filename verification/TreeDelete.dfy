/**
 * Delete, after goimpl/internal/tree/tree.go:992-1030: which nodes it takes out of
 * the tree, what it needs permission for, and that doing it again does nothing.
 */
module TreeDelete {
  import opened Basics
  import opened WireTypes
  import opened Expression
  import opened Authz
  import opened TreeState
  import opened TreeRead
  import opened TreeSet
  import opened TreeTouched
  import opened TreeSetSafety
  import opened TreePlan
  import opened TreeSetTheorems

  /** The matches of every target in turn; the first target that does not parse ends the request. */
  ghost function MatchAll(env: Engine, s: Snap, root: Node, auth: Option<Checker>,
                          targets: seq<Bytes>): Result<seq<Node>, SetError> {
    if targets == [] then Ok([])
    else
      var before :- MatchAll(env, s, root, auth, targets[..|targets| - 1]);
      var parsed := Parse(env.re, targets[|targets| - 1]);
      if parsed.Err? then Err(BadTarget(parsed.error))
      else Ok(before + Evaluate(env, s, root, auth, parsed.value))
  }

  /** removeChild of each node of ns in turn. */
  function RemoveAll(s: Snap, ns: seq<Node>): Snap {
    if ns == [] then s
    else
      var s1, n := RemoveAll(s, ns[..|ns| - 1]), ns[|ns| - 1];
      RemoveFromParent(s1, n)
  }

  function RemoveFromParent(s: Snap, n: Node): Snap {
    var p := ParentOf(s, n);
    if p == null then s else WithChildren(s, p, Remove(KidsOf(s, p), n))
  }

  ghost function DeleteAs(env: Engine, s: Snap, root: Node, auth: Option<Checker>, targets: seq<Bytes>): (Snap,
                          Result<seq<Node>, SetError>)
    requires Inv(s, root)
  {
    var matches := MatchAll(env, s, root, auth, targets);
    if matches.Err? then (s, Err(matches.error))
    else
      var matched := FirstSeen(matches.value);
      if !DeleteAllowed(s, root, auth, matched) then (s, Err(Denied))
      else (RemoveAll(s, matched), Ok(matched))
  }

  // --- the lists it leaves -----------------------------------------------------------------

  lemma {:induction false} RemoveKeeps(xs: seq<Node>, x: Node, all: set<Node>)
    requires NoDup(xs) && forall n :: n in xs ==> n in all
    ensures Remove(xs, x) == KeepNodes(xs, all - {x})
  {
    hide NoDup, KeepNodes, Remove;
    if xs == [] {
      RemoveNil(x, all - {x});
    } else {
      var init, last := xs[..|xs| - 1], xs[|xs| - 1];
      assert xs == init + [last] && last in xs;
      NoDupInit(init, last);
      RemoveKeeps(init, x, all);
      RemoveSnoc(init, last, x);
      KeepSnoc(init, last, all - {x});
      if x !in init {
        RemoveAbsent(init, x);
      }
    }
  }

  lemma RemoveNil(x: Node, p: set<Node>)
    ensures Remove([], x) == KeepNodes([], p)
  {
  }

  lemma NoDupInit(init: seq<Node>, last: Node)
    requires NoDup(init + [last])
    ensures NoDup(init) && last !in init
  {
    var xs := init + [last];
    forall i, j | 0 <= i < j < |init|
      ensures init[i] != init[j]
    {
      assert xs[i] != xs[j];
    }
    forall i | 0 <= i < |init|
      ensures init[i] != last
    {
      assert xs[i] != xs[|init|];
    }
  }

  lemma {:induction false} RemoveSnoc(init: seq<Node>, last: Node, x: Node)
    ensures Remove(init + [last], x) == if x in init then Remove(init, x) + [last] else if last == x then init else init + [last]
  {
    if init != [] {
      assert (init + [last])[1..] == init[1..] + [last];
      RemoveSnoc(init[1..], last, x);
      assert init == [init[0]] + init[1..];
    }
  }

  lemma {:induction false} RemoveAbsent(xs: seq<Node>, x: Node)
    requires x !in xs
    ensures Remove(xs, x) == xs
  {
    if xs != [] {
      RemoveAbsent(xs[1..], x);
    }
  }

  lemma {:induction false} KeepTwice(xs: seq<Node>, p: set<Node>, q: set<Node>)
    ensures KeepNodes(KeepNodes(xs, p), q) == KeepNodes(xs, p * q)
  {
    if xs != [] {
      var init, last := xs[..|xs| - 1], xs[|xs| - 1];
      assert xs == init + [last];
      hide KeepNodes;
      KeepTwice(init, p, q);
      KeepSnoc(init, last, p);
      KeepSnoc(init, last, p * q);
      if last in p {
        KeepSnoc(KeepNodes(init, p), last, q);
      }
    }
  }

  /** s' is s with the nodes of gone taken out of every list, and nothing else changed. */
  ghost predicate Without(s: Snap, s': Snap, gone: set<Node>) {
    && s'.Keys == s.Keys
    && forall n :: n in s ==> s'[n] == s[n].(children := KeepNodes(s[n].children, s.Keys - gone))
  }

  lemma WithoutNothing(s: Snap, root: Node)
    requires Inv(s, root)
    ensures Without(s, s, {})
  {
    hide KeepNodes;
    forall n | n in s
      ensures KeepNodes(s[n].children, s.Keys - {}) == s[n].children
    {
      assert s.Keys - {} == s.Keys;
      KeepAll(s[n].children, s.Keys);
    }
  }

  lemma KidsKept(s: Snap, root: Node, n: Node, gone: set<Node>)
    requires Inv(s, root)
    ensures NoDup(KeepNodes(KidsOf(s, n), s.Keys - gone))
    ensures forall c :: c in KeepNodes(KidsOf(s, n), s.Keys - gone) <==> c in KidsOf(s, n) && c !in gone
  {
    hide KeepNodes;
    DistinctKids(s, root, n);
    NoDupKept(KidsOf(s, n), s.Keys - gone);
    KidsInside(s, root, n);
    hide Inv;
    KeepMembers(KidsOf(s, n), s.Keys - gone);
  }

  lemma WithoutOne(s: Snap, s1: Snap, root: Node, gone: set<Node>, t: Node)
    requires Inv(s, root) && Without(s, s1, gone) && t in s
    ensures Without(s, RemoveFromParent(s1, t), gone + {t})
  {
    hide KeepNodes, Remove, Inv;
    var s2 := RemoveFromParent(s1, t);
    forall n | n in s
      ensures s2[n] == s[n].(children := KeepNodes(s[n].children, s.Keys - (gone + {t})))
    {
      var kept := KeepNodes(s[n].children, s.Keys - gone);
      KidsKept(s, root, n, gone);
      KeepTwice(s[n].children, s.Keys - gone, s.Keys - {t});
      assert (s.Keys - gone) * (s.Keys - {t}) == s.Keys - (gone + {t});
      KidsInside(s, root, n);
      if n == s[t].parent {
        RemoveKeeps(kept, t, s.Keys);
      } else {
        NotIn(s, root, n, t);
        KeepAgree(kept, s.Keys - {t}, s.Keys);
        KeepAll(kept, s.Keys);
      }
    }
  }

  lemma NotIn(s: Snap, root: Node, n: Node, t: Node)
    requires Inv(s, root) && n in s && t in s && s[t].parent != n
    ensures t !in s[n].children
  {
  }

  lemma {:induction false} RemoveAllIsWithout(s: Snap, root: Node, ns: seq<Node>)
    requires Inv(s, root) && forall n :: n in ns ==> n in s
    ensures Without(s, RemoveAll(s, ns), Members(ns))
  {
    hide Without, Inv, RemoveFromParent;
    if ns == [] {
      WithoutNothing(s, root);
      assert Members(ns) == {};
    } else {
      var k := |ns| - 1;
      assert ns[k] in ns;
      RemoveAllIsWithout(s, root, ns[..k]);
      WithoutOne(s, RemoveAll(s, ns[..k]), root, Members(ns[..k]), ns[k]);
      assert Members(ns) == Members(ns[..k]) + {ns[k]};
    }
  }

  /** A node that is removed is still in its parent's list when its turn comes. */
  lemma EachIsStillThere(s: Snap, root: Node, ns: seq<Node>, k: nat)
    requires Inv(s, root) && NoDup(ns) && k < |ns|
    requires forall n :: n in ns ==> n in s && s[n].parent != null && n in KidsOf(s, s[n].parent)
    ensures var s1 := RemoveAll(s, ns[..k]); ParentOf(s1, ns[k]) != null && ns[k] in KidsOf(s1, ParentOf(s1, ns[k]))
  {
    hide Inv, KeepNodes, RemoveAll;
    var n := ns[k];
    assert n in ns && n !in Members(ns[..k]);
    RemoveAllIsWithout(s, root, ns[..k]);
    KidsKept(s, root, s[n].parent, Members(ns[..k]));
    ParentInside(s, root, n);
  }

  // --- the matches ---------------------------------------------------------------------------

  ghost predicate MatchedBy(env: Engine, s: Snap, root: Node, auth: Option<Checker>, targets: seq<Bytes>, n: Node) {
    exists i :: 0 <= i < |targets| && Parse(env.re, targets[i]).Ok?
                && n in Evaluate(env, s, root, auth, Parse(env.re, targets[i]).value)
  }

  lemma {:induction false} MatchAllMembers(env: Engine, s: Snap, root: Node, auth: Option<Checker>,
                                           targets: seq<Bytes>, n: Node)
    ensures var m := MatchAll(env, s, root, auth, targets);
            && (m.Ok? <==> forall i :: 0 <= i < |targets| ==> Parse(env.re, targets[i]).Ok?)
            && (m.Ok? ==> (n in m.value <==> MatchedBy(env, s, root, auth, targets, n)))
  {
    hide Parse, Evaluate;
    if targets != [] {
      var k := |targets| - 1;
      var init := targets[..k];
      MatchAllMembers(env, s, root, auth, init, n);
      assert targets == init + [targets[k]];
      if MatchedBy(env, s, root, auth, init, n) {
        var i :| 0 <= i < k && Parse(env.re, init[i]).Ok? && n in Evaluate(env, s, root, auth, Parse(env.re, init[i]).value);
        assert targets[i] == init[i];
      }
    }
  }

  /** A match is in the tree, reachable, and never the root. */
  lemma MatchedIsReachable(env: Engine, s: Snap, root: Node, auth: Option<Checker>, targets: seq<Bytes>, n: Node)
    requires Inv(s, root) && MatchedBy(env, s, root, auth, targets, n)
    ensures n in s && Below(s, root, n) && n != root
    ensures s[n].parent != null && n in KidsOf(s, s[n].parent)
  {
    hide Parse, Evaluate, Below, MatchesUpTo, Height;
    var i :| 0 <= i < |targets| && Parse(env.re, targets[i]).Ok?
             && n in Evaluate(env, s, root, auth, Parse(env.re, targets[i]).value);
    var segments := Parse(env.re, targets[i]).value;
    EvaluateMember(env, s, root, auth, segments, n);
    ParsedNotEmpty(env.re, targets[i]);
    HeightStep(s, n);
    BelowParent(s, root, root, n);
  }

  // --- what is left ---------------------------------------------------------------------------

  ghost predicate UnderAny(s: Snap, tops: set<Node>, n: Node) {
    exists t :: t in tops && Below(s, t, n)
  }

  lemma WithoutKeepsInv(s: Snap, s': Snap, root: Node, gone: set<Node>)
    requires Inv(s, root) && Without(s, s', gone)
    ensures Inv(s', root)
    ensures forall n, c :: n in s ==> (c in s'[n].children <==> c in s[n].children && c !in gone)
  {
    hide Acyclic, KeepNodes;
    forall n | n in s
      ensures NoDup(s'[n].children)
      ensures forall c :: c in s'[n].children <==> c in s[n].children && c !in gone
    {
      KidsKept(s, root, n, gone);
    }
    ShrunkListsKeepInv(s, s', root);
  }

  lemma {:induction false} ReachableAfter(s: Snap, s': Snap, root: Node, gone: set<Node>, n: Node)
    requires Inv(s, root) && Inv(s', root) && s'.Keys == s.Keys && n in s && root !in gone
    requires forall m :: m in s ==> s'[m].parent == s[m].parent
    requires forall m, c :: m in s ==> (c in s'[m].children <==> c in s[m].children && c !in gone)
    ensures Below(s', root, n) <==> Below(s, root, n) && !UnderAny(s, gone, n)
    decreases Height(s, n)
  {
    hide Below, Inv;
    if n == root {
      BelowSelf(s, n);
      BelowSelf(s', n);
      RootUnderNone(s, root, gone);
    } else {
      Grounds(s, root, n);
      BelowParent(s, root, root, n);
      BelowParent(s', root, root, n);
      UnderParent(s, root, gone, n);
      var p := s[n].parent;
      if p != null && n in KidsOf(s, p) {
        ParentInside(s, root, n);
        ReachableAfter(s, s', root, gone, p);
      }
    }
  }

  lemma Grounds(s: Snap, root: Node, n: Node)
    requires Inv(s, root) && n in s
    ensures Grounded(s, n)
    ensures s[n].parent != null ==> s[n].parent in s && Grounded(s, s[n].parent) && Height(s, s[n].parent) < Height(s, n)
  {
    HeightStep(s, n);
  }

  lemma RootUnderNone(s: Snap, root: Node, gone: set<Node>)
    requires Inv(s, root) && root !in gone
    ensures !UnderAny(s, gone, root)
  {
    forall t | t in gone
      ensures !Below(s, t, root)
    {
      BelowParent(s, root, t, root);
    }
  }

  lemma UnderParent(s: Snap, root: Node, gone: set<Node>, n: Node)
    requires Inv(s, root) && n in s
    ensures UnderAny(s, gone, n) <==>
              n in gone || (s[n].parent != null && n in KidsOf(s, s[n].parent) && UnderAny(s, gone, s[n].parent))
  {
    hide Below, Inv;
    ParentInside(s, root, n);
    if n in gone {
      BelowSelf(s, n);
    }
    forall t | t in gone && t != n
      ensures Below(s, t, n) <==> s[n].parent != null && n in KidsOf(s, s[n].parent) && Below(s, t, s[n].parent)
    {
      BelowParent(s, root, t, n);
    }
    if s[n].parent != null && n in KidsOf(s, s[n].parent) && UnderAny(s, gone, s[n].parent) {
      var t :| t in gone && Below(s, t, s[n].parent);
      if t != n {
        assert Below(s, t, n);
      }
    }
  }

  ghost function Matched(env: Engine, s: Snap, root: Node, auth: Option<Checker>, targets: seq<Bytes>): set<Node> {
    set n | n in s && MatchedBy(env, s, root, auth, targets, n)
  }

  lemma MatchedMembers(env: Engine, s: Snap, root: Node, auth: Option<Checker>, targets: seq<Bytes>)
    requires Inv(s, root) && MatchAll(env, s, root, auth, targets).Ok?
    ensures var ns := FirstSeen(MatchAll(env, s, root, auth, targets).value);
            && Members(ns) == Matched(env, s, root, auth, targets) && NoDup(ns)
            && (forall n :: n in ns ==> n in s)
  {
    hide MatchAll, MatchedBy, NoDup, Inv, TouchAll;
    var ms := MatchAll(env, s, root, auth, targets).value;
    FirstSeenMembers(ms);
    forall n | n in FirstSeen(ms)
      ensures n in s && MatchedBy(env, s, root, auth, targets, n)
    {
      FirstSeenMember(ms, n);
      MatchAllMembers(env, s, root, auth, targets, n);
      MatchedIsReachable(env, s, root, auth, targets, n);
    }
    forall n | n in s && MatchedBy(env, s, root, auth, targets, n)
      ensures n in FirstSeen(ms)
    {
      FirstSeenMember(ms, n);
      MatchAllMembers(env, s, root, auth, targets, n);
    }
  }

  /** A successful Delete takes exactly its matches out of their lists, and changes nothing else. */
  lemma DeleteRemovesMatches(env: Engine, s: Snap, root: Node, auth: Option<Checker>, targets: seq<Bytes>)
    requires Inv(s, root) && DeleteAs(env, s, root, auth, targets).1.Ok?
    ensures Without(s, DeleteAs(env, s, root, auth, targets).0, Matched(env, s, root, auth, targets))
  {
    hide Without, MatchAll, Inv, Matched, RemoveAll, FirstSeen, DeleteAllowed, NoDup;
    MatchedMembers(env, s, root, auth, targets);
    RemoveAllIsWithout(s, root, FirstSeen(MatchAll(env, s, root, auth, targets).value));
  }

  /**
   * What is reachable after a Delete is what was reachable before, less the subtree
   * of every match, however the matches overlap or nest; the invariant is kept, and
   * every node that goes had delete allowed. On any error nothing changes.
   */
  lemma DeleteOutcome(env: Engine, s: Snap, root: Node, auth: Option<Checker>, targets: seq<Bytes>, n: Node)
    requires Inv(s, root) && n in s
    ensures var (s', r) := DeleteAs(env, s, root, auth, targets);
            && Inv(s', root)
            && (r.Err? ==> s' == s)
            && (r.Ok? ==>
                 && s'.Keys == s.Keys
                 && (n in ReachSet(s', root) <==>
                       n in ReachSet(s, root) && !UnderAny(s, Matched(env, s, root, auth, targets), n))
                 && (n in ReachSet(s, root) && n !in ReachSet(s', root) ==> May(s, auth, OpDelete, n)))
  {
    hide Inv, DeleteAs, Below, Matched, May, Without, UnderAny;
    var (s', r) := DeleteAs(env, s, root, auth, targets);
    DeleteError(env, s, root, auth, targets);
    if r.Ok? {
      var gone := Matched(env, s, root, auth, targets);
      DeleteRemovesMatches(env, s, root, auth, targets);
      WithoutKeepsInv(s, s', root, gone);
      WithoutFields(s, s', gone);
      RootNotMatched(env, s, root, auth, targets);
      ReachableAfter(s, s', root, gone, n);
      if UnderAny(s, gone, n) {
        GoneWereDeletable(env, s, root, auth, targets, n);
      }
    }
  }

  lemma DeleteError(env: Engine, s: Snap, root: Node, auth: Option<Checker>, targets: seq<Bytes>)
    requires Inv(s, root)
    ensures var (s', r) := DeleteAs(env, s, root, auth, targets); r.Err? ==> s' == s
  {
  }

  lemma WithoutFields(s: Snap, s': Snap, gone: set<Node>)
    requires Without(s, s', gone)
    ensures s'.Keys == s.Keys
    ensures forall n :: n in s ==> s'[n].parent == s[n].parent && s'[n].value == s[n].value && s'[n].id == s[n].id
  {
  }

  lemma RootNotMatched(env: Engine, s: Snap, root: Node, auth: Option<Checker>, targets: seq<Bytes>)
    requires Inv(s, root)
    ensures root !in Matched(env, s, root, auth, targets)
  {
    hide MatchedBy, Inv, Below;
    if MatchedBy(env, s, root, auth, targets, root) {
      MatchedIsReachable(env, s, root, auth, targets, root);
    }
  }

  lemma GoneWereDeletable(env: Engine, s: Snap, root: Node, auth: Option<Checker>, targets: seq<Bytes>, n: Node)
    requires Inv(s, root) && n in s && DeleteAs(env, s, root, auth, targets).1.Ok?
    requires UnderAny(s, Matched(env, s, root, auth, targets), n)
    ensures May(s, auth, OpDelete, n)
  {
    hide Inv, Below, Matched, MatchAll, May, FirstSeen, RemoveAll, NoDup;
    MatchedMembers(env, s, root, auth, targets);
    var t :| t in Matched(env, s, root, auth, targets) && Below(s, t, n);
    assert t in FirstSeen(MatchAll(env, s, root, auth, targets).value);
  }

  // --- again, and in another order ---------------------------------------------------------------

  lemma {:induction false} StillMatches(env: Engine, s: Snap, s': Snap, auth: Option<Checker>,
                                        segments: seq<Segment>, k: nat, n: Node)
    requires SameParents(s, s') && (forall m :: m in s ==> s'[m].value == s[m].value)
    requires k <= |segments| && MatchesUpTo(env, s, auth, segments, k, n)
    ensures MatchesUpTo(env, s', auth, segments, k, n)
  {
    hide Passes, KeyPath;
    if k > 0 {
      KeyPathSame(s, s', n);
      StillMatches(env, s, s', auth, segments, k - 1, s[n].parent);
    }
  }

  lemma NoneMatchAgain(env: Engine, s: Snap, s': Snap, root: Node, auth: Option<Checker>, targets: seq<Bytes>, n: Node)
    requires Inv(s, root) && Inv(s', root) && Without(s, s', Matched(env, s, root, auth, targets))
    requires forall m :: m in s && Below(s', root, m) ==> Below(s, root, m) && m !in Matched(env, s, root, auth, targets)
    ensures !MatchedBy(env, s', root, auth, targets, n)
  {
    hide Below, Height, Inv, Parse, Evaluate, MatchesUpTo;
    WithoutFields(s, s', Matched(env, s, root, auth, targets));
    hide Without;
    if MatchedBy(env, s', root, auth, targets, n) {
      var i :| 0 <= i < |targets| && Parse(env.re, targets[i]).Ok?
               && n in Evaluate(env, s', root, auth, Parse(env.re, targets[i]).value);
      var segments := Parse(env.re, targets[i]).value;
      EvaluateMember(env, s', root, auth, segments, n);
      HeightSame(s', s, n);
      StillMatches(env, s', s, auth, segments, |segments|, n);
      EvaluateMember(env, s, root, auth, segments, n);
    }
  }

  lemma {:induction false} HeightSame(s: Snap, s': Snap, n: Node)
    requires SameParents(s, s') && Grounded(s, n)
    ensures Grounded(s', n) && Height(s', n) == Height(s, n)
    decreases Height(s, n)
  {
    KeyPathSame(s, s', n);
    HeightStep(s, n);
    HeightStep(s', n);
    if s[n].parent != null {
      HeightSame(s, s', s[n].parent);
    }
  }

  /** The same Delete again matches nothing, changes nothing and is no error. */
  lemma DeleteIsIdempotent(env: Engine, s: Snap, root: Node, auth: Option<Checker>, targets: seq<Bytes>)
    requires Inv(s, root) && DeleteAs(env, s, root, auth, targets).1.Ok?
    ensures var s' := DeleteAs(env, s, root, auth, targets).0;
            Inv(s', root) && DeleteAs(env, s', root, auth, targets) == (s', Ok([]))
  {
    var s' := DeleteAs(env, s, root, auth, targets).0;
    hide Inv, DeleteAs, Below, Matched, May, Without, MatchAll, MatchedBy;
    DeleteParses(env, s, root, auth, targets);
    DeleteRemovesMatches(env, s, root, auth, targets);
    WithoutKeepsInv(s, s', root, Matched(env, s, root, auth, targets));
    WithoutFields(s, s', Matched(env, s, root, auth, targets));
    forall m | m in s && Below(s', root, m)
      ensures Below(s, root, m) && m !in Matched(env, s, root, auth, targets)
    {
      DeleteOutcome(env, s, root, auth, targets, m);
      BelowSelf(s, m);
    }
    MatchAllMembers(env, s, root, auth, targets, root);
    MatchAllMembers(env, s', root, auth, targets, root);
    var ms := MatchAll(env, s', root, auth, targets).value;
    if ms != [] {
      HasMember(ms);
      MatchAllMembers(env, s', root, auth, targets, ms[0]);
      NoneMatchAgain(env, s, s', root, auth, targets, ms[0]);
    }
    NothingToDelete(env, s', root, auth, targets);
  }

  lemma DeleteParses(env: Engine, s: Snap, root: Node, auth: Option<Checker>, targets: seq<Bytes>)
    requires Inv(s, root) && DeleteAs(env, s, root, auth, targets).1.Ok?
    ensures MatchAll(env, s, root, auth, targets).Ok?
  {
  }

  lemma NothingToDelete(env: Engine, s: Snap, root: Node, auth: Option<Checker>, targets: seq<Bytes>)
    requires Inv(s, root) && MatchAll(env, s, root, auth, targets) == Ok([])
    ensures DeleteAs(env, s, root, auth, targets) == (s, Ok([]))
  {
    hide Inv, MatchAll, May, Below;
  }

  /** Two Deletes naming the same targets in any order, any number of times, both succeed or both fail, leave the same tree and report the same nodes. */
  lemma TargetOrderIsIrrelevant(env: Engine, s: Snap, root: Node, auth: Option<Checker>, a: seq<Bytes>, b: seq<Bytes>)
    requires Inv(s, root) && (forall x :: x in a <==> x in b)
    ensures DeleteAs(env, s, root, auth, a).1.Ok? <==> DeleteAs(env, s, root, auth, b).1.Ok?
    ensures DeleteAs(env, s, root, auth, a).0 == DeleteAs(env, s, root, auth, b).0
    ensures var (ra, rb) := (DeleteAs(env, s, root, auth, a).1, DeleteAs(env, s, root, auth, b).1);
            ra.Ok? && rb.Ok? ==> Members(ra.value) == Members(rb.value) && NoDup(ra.value) && NoDup(rb.value)
  {
    hide Inv, DeleteAs, Without, Matched, MatchAll, DeleteAllowed, FirstSeen, NoDup;
    RootHasNoParent(s, root);
    if DeleteAs(env, s, root, auth, a).1.Ok? {
      SucceedsAlike(env, s, root, auth, a, b);
    } else if DeleteAs(env, s, root, auth, b).1.Ok? {
      SucceedsAlike(env, s, root, auth, b, a);
    }
    if DeleteAs(env, s, root, auth, a).1.Ok? {
      DeleteRemovesMatches(env, s, root, auth, a);
      DeleteRemovesMatches(env, s, root, auth, b);
      SameMatched(env, s, root, auth, a, b);
      ReportsMatched(env, s, root, auth, a);
      ReportsMatched(env, s, root, auth, b);
      SameWithout(s, DeleteAs(env, s, root, auth, a).0, DeleteAs(env, s, root, auth, b).0, Matched(env, s, root, auth, a));
    } else {
      DeleteError(env, s, root, auth, a);
      DeleteError(env, s, root, auth, b);
    }
  }

  /** A successful Delete reports what it matched, each node once. */
  lemma ReportsMatched(env: Engine, s: Snap, root: Node, auth: Option<Checker>, targets: seq<Bytes>)
    requires Inv(s, root) && DeleteAs(env, s, root, auth, targets).1.Ok?
    ensures var ns := DeleteAs(env, s, root, auth, targets).1.value;
            Members(ns) == Matched(env, s, root, auth, targets) && NoDup(ns)
  {
    hide Inv, MatchAll, FirstSeen, DeleteAllowed, RemoveAll, Matched, NoDup;
    MatchedMembers(env, s, root, auth, targets);
  }

  lemma SucceedsAlike(env: Engine, s: Snap, root: Node, auth: Option<Checker>, a: seq<Bytes>, b: seq<Bytes>)
    requires Inv(s, root) && (forall x :: x in a <==> x in b)
    requires DeleteAs(env, s, root, auth, a).1.Ok?
    ensures DeleteAs(env, s, root, auth, b).1.Ok?
  {
    hide Inv, MatchAll, FirstSeen, May, Below, MatchedBy, Parse;
    MatchAllMembers(env, s, root, auth, a, root);
    MatchAllMembers(env, s, root, auth, b, root);
    forall i | 0 <= i < |b|
      ensures Parse(env.re, b[i]).Ok?
    {
      assert b[i] in a;
    }
    var ma, mb := MatchAll(env, s, root, auth, a).value, MatchAll(env, s, root, auth, b).value;
    forall n | n in FirstSeen(mb)
      ensures n in FirstSeen(ma)
    {
      FirstSeenMember(ma, n);
      FirstSeenMember(mb, n);
      MatchAllMembers(env, s, root, auth, a, n);
      MatchAllMembers(env, s, root, auth, b, n);
      SubsetMatches(env, s, root, auth, b, a, n);
    }
  }

  lemma SameMatched(env: Engine, s: Snap, root: Node, auth: Option<Checker>, a: seq<Bytes>, b: seq<Bytes>)
    requires forall x :: x in a <==> x in b
    ensures Matched(env, s, root, auth, a) == Matched(env, s, root, auth, b)
  {
    hide MatchedBy;
    forall n | n in s
      ensures MatchedBy(env, s, root, auth, a, n) <==> MatchedBy(env, s, root, auth, b, n)
    {
      if MatchedBy(env, s, root, auth, a, n) {
        SubsetMatches(env, s, root, auth, a, b, n);
      }
      if MatchedBy(env, s, root, auth, b, n) {
        SubsetMatches(env, s, root, auth, b, a, n);
      }
    }
  }

  lemma SubsetMatches(env: Engine, s: Snap, root: Node, auth: Option<Checker>, a: seq<Bytes>, b: seq<Bytes>, n: Node)
    requires MatchedBy(env, s, root, auth, a, n) && forall x :: x in a ==> x in b
    ensures MatchedBy(env, s, root, auth, b, n)
  {
    hide Evaluate, Parse;
    var i :| 0 <= i < |a| && Parse(env.re, a[i]).Ok? && n in Evaluate(env, s, root, auth, Parse(env.re, a[i]).value);
    assert a[i] in b;
    var j :| 0 <= j < |b| && b[j] == a[i];
  }

  lemma SameWithout(s: Snap, a: Snap, b: Snap, gone: set<Node>)
    requires Without(s, a, gone) && Without(s, b, gone)
    ensures a == b
  {
  }

  /** One session's Delete takes nothing out of another session's subtree, whatever the policy. */
  lemma DeleteSparesOtherSessions(env: Engine, s: Snap, root: Node, policy: Option<Policy>, identity: Bytes,
                                  own: Bytes, other: Bytes, targets: seq<Bytes>, n: Node)
    requires Inv(s, root) && SLASH !in own && SLASH !in other && own != other
    requires n in ReachSet(s, root) && InSession(other, NodePath(s, n))
    ensures n in ReachSet(DeleteAs(env, s, root, Some(SessionChecker(policy, identity, own)), targets).0, root)
  {
    hide DeleteAs, Inv, Below, UnderAny, Matched;
    InvGrounds(s, root, n);
    DeleteOutcome(env, s, root, Some(SessionChecker(policy, identity, own)), targets, n);
    OtherSessionsAreClosed(policy, identity, own, other, OpDelete, NodePath(s, n));
  }
}
