/**
 * When a Delete and a Create succeed, said of what their expressions match
 * (goimpl/internal/tree/tree.go:711-731 and 992-1023), and in which order a Delete reports.
 */
module TreeOutcomes {
  import opened Basics
  import opened WireTypes
  import opened Expression
  import opened Authz
  import opened TreeState
  import opened TreeRead
  import opened TreeSet
  import opened TreeTouched
  import opened TreePlan
  import opened TreeSetEdits
  import opened TreeDelete
  import opened TreeGrow

  // --- Delete ------------------------------------------------------------------------------

  /**
   * A Delete succeeds exactly when every target parses and every node matched, with all
   * that is listed below it, may be deleted; where only that is missing, it is refused for
   * lack of permission. However many nodes a target matches, and none, is no error.
   */
  lemma DeleteSucceeds(env: Engine, s: Snap, root: Node, auth: Option<Checker>, targets: seq<Bytes>)
    requires Inv(s, root)
    ensures var r := DeleteAs(env, s, root, auth, targets).1;
            var parse := forall i :: 0 <= i < |targets| ==> Parse(env.re, targets[i]).Ok?;
            var free := forall i, n :: 0 <= i < |targets| && n in s && Hits(env, s, root, auth, targets[i], n) ==> MayDrop(s, auth, n);
            && (r.Ok? <==> parse && free)
            && (r == Err(Denied) <==> parse && !free)
  {
    hide Inv, MatchAll, Evaluate, Parse, MayDrop, FirstSeen, DeleteAllowed, RemoveAll, MatchedBy;
    MatchAllMembers(env, s, root, auth, targets, root);
    MatchErrors(env, s, root, auth, targets);
    var m := MatchAll(env, s, root, auth, targets);
    if m.Ok? {
      MatchedMembers(env, s, root, auth, targets);
      var ns := FirstSeen(m.value);
      DroppableMeans(s, root, auth, ns);
      forall i, n | 0 <= i < |targets| && n in s && Hits(env, s, root, auth, targets[i], n)
        ensures n in Members(ns)
      {
        HitIsMatched(env, s, root, auth, targets, i, n);
      }
      forall k | 0 <= k < |ns|
        ensures ns[k] in s && exists i :: 0 <= i < |targets| && Hits(env, s, root, auth, targets[i], ns[k])
      {
        assert ns[k] in Members(ns);
        var i := MatchedIsHit(env, s, root, auth, targets, ns[k]);
      }
    }
  }

  lemma HitIsMatched(env: Engine, s: Snap, root: Node, auth: Option<Checker>, targets: seq<Bytes>, i: nat, n: Node)
    requires i < |targets| && n in s && Hits(env, s, root, auth, targets[i], n)
    ensures n in Matched(env, s, root, auth, targets)
  {
    hide Parse, Evaluate;
  }

  lemma MatchedIsHit(env: Engine, s: Snap, root: Node, auth: Option<Checker>, targets: seq<Bytes>, n: Node)
    returns (i: nat)
    requires n in Matched(env, s, root, auth, targets)
    ensures i < |targets| && Hits(env, s, root, auth, targets[i], n)
  {
    hide Parse, Evaluate;
    i :| 0 <= i < |targets| && Parse(env.re, targets[i]).Ok? && n in Evaluate(env, s, root, auth, Parse(env.re, targets[i]).value);
  }

  lemma {:induction false} MatchErrors(env: Engine, s: Snap, root: Node, auth: Option<Checker>, targets: seq<Bytes>)
    ensures MatchAll(env, s, root, auth, targets) != Err(Denied)
  {
    hide Parse, Evaluate;
    if targets != [] {
      MatchErrors(env, s, root, auth, targets[..|targets| - 1]);
    }
  }

  // --- in which order ------------------------------------------------------------------------

  /** What is touched first comes first. */
  lemma {:induction false} TouchAllOrder(acc: seq<Node>, xs: seq<Node>, i: nat, j: nat)
    requires i < j < |TouchAll(acc, xs)| && |acc| <= j
    ensures |TouchAll(acc, xs)| >= |acc| && acc == TouchAll(acc, xs)[..|acc|]
    ensures TouchAll(acc, xs)[j] in xs
    ensures i >= |acc| ==> 0 <= IndexOf(xs, TouchAll(acc, xs)[i]) < IndexOf(xs, TouchAll(acc, xs)[j])
  {
    hide IndexOf;
    var init, last := xs[..|xs| - 1], xs[|xs| - 1];
    assert xs == init + [last];
    var before, after := TouchAll(acc, init), TouchAll(acc, xs);
    TouchedPrefix(acc, init);
    TouchedPrefix(acc, xs);
    IndexOfInit(init, last, after[i]);
    IndexOfInit(init, last, after[j]);
    if j < |before| {
      TouchAllOrder(acc, init, i, j);
      if i >= |acc| {
        assert after[i] == before[i] && after[j] == before[j];
        TouchedIn(acc, init, i);
      }
    } else if i >= |acc| {
      TouchedIn(acc, init, i);
      TouchedNew(acc, init, last);
    }
  }

  lemma {:induction false} TouchedPrefix(acc: seq<Node>, xs: seq<Node>)
    ensures |TouchAll(acc, xs)| >= |acc| && TouchAll(acc, xs)[..|acc|] == acc
  {
    if xs != [] {
      TouchedPrefix(acc, xs[..|xs| - 1]);
    }
  }

  lemma {:induction false} TouchedIn(acc: seq<Node>, xs: seq<Node>, i: nat)
    requires |acc| <= i < |TouchAll(acc, xs)|
    ensures TouchAll(acc, xs)[i] in xs
  {
    if xs != [] {
      var init := xs[..|xs| - 1];
      if i < |TouchAll(acc, init)| {
        TouchedIn(acc, init, i);
        assert forall x :: x in init ==> x in xs;
      }
    }
  }

  lemma TouchedNew(acc: seq<Node>, init: seq<Node>, last: Node)
    requires last !in TouchAll(acc, init)
    ensures last !in init
  {
    TouchedHas(acc, init, last);
  }

  lemma {:induction false} TouchedHas(acc: seq<Node>, xs: seq<Node>, x: Node)
    ensures x in xs ==> x in TouchAll(acc, xs)
  {
    if xs != [] {
      TouchedHas(acc, xs[..|xs| - 1], x);
      assert xs == xs[..|xs| - 1] + [xs[|xs| - 1]];
    }
  }

  /**
   * A Delete reports in first-matched order: by the first target that matches a node, and
   * by place among the matches of that one.
   */
  lemma {:induction false} DeleteReportsInOrder(env: Engine, s: Snap, root: Node, auth: Option<Checker>,
                                                targets: seq<Bytes>,
                                                i: nat, j: nat) returns (a: nat, b: nat)
    requires MatchAll(env, s, root, auth, targets).Ok?
    requires i < j < |FirstSeen(MatchAll(env, s, root, auth, targets).value)|
    ensures var r := FirstSeen(MatchAll(env, s, root, auth, targets).value);
            && a <= b < |targets|
            && FirstHit(env, s, root, auth, targets, a, r[i]) && FirstHit(env, s, root, auth, targets, b, r[j])
            && (a == b ==>
                  var found := Evaluate(env, s, root, auth, Parse(env.re, targets[a]).value);
                  IndexOf(found, r[i]) < IndexOf(found, r[j]))
  {
    hide Parse, Evaluate, TouchAll;
    var k := |targets| - 1;
    MatchAllUnfolds(env, s, root, auth, targets);
    var init := targets[..k];
    var before := MatchAll(env, s, root, auth, init).value;
    var found := Evaluate(env, s, root, auth, Parse(env.re, targets[k]).value);
    var acc, r := FirstSeen(before), FirstSeen(MatchAll(env, s, root, auth, targets).value);
    TouchAllConcat([], before, found);
    TouchedPrefix(acc, found);
    if j < |acc| {
      a, b := DeleteReportsInOrder(env, s, root, auth, init, i, j);
      assert init[a] == targets[a];
      FirstHitStays(env, s, root, auth, targets, a, r[i]);
      FirstHitStays(env, s, root, auth, targets, b, r[j]);
    } else {
      b := k;
      TouchAllOrder(acc, found, i, j);
      NewInReport(env, s, root, auth, targets, j);
      if i < |acc| {
        a := OldInReport(env, s, root, auth, init, i);
        FirstHitStays(env, s, root, auth, targets, a, r[i]);
      } else {
        a := k;
        NewInReport(env, s, root, auth, targets, i);
      }
    }
  }

  /** Target a is the first to match n. */
  ghost predicate FirstHit(env: Engine, s: Snap, root: Node, auth: Option<Checker>, targets: seq<Bytes>, a: nat,
                           n: Node) {
    a < |targets| && Hits(env, s, root, auth, targets[a], n)
    && forall b :: 0 <= b < a ==> !Hits(env, s, root, auth, targets[b], n)
  }

  lemma FirstHitStays(env: Engine, s: Snap, root: Node, auth: Option<Checker>, targets: seq<Bytes>, a: nat, n: Node)
    requires targets != [] && FirstHit(env, s, root, auth, targets[..|targets| - 1], a, n)
    ensures FirstHit(env, s, root, auth, targets, a, n)
  {
    hide Hits;
    var init := targets[..|targets| - 1];
    assert forall b :: 0 <= b < |init| ==> init[b] == targets[b];
  }

  lemma MatchAllUnfolds(env: Engine, s: Snap, root: Node, auth: Option<Checker>, targets: seq<Bytes>)
    requires MatchAll(env, s, root, auth, targets).Ok? && FirstSeen(MatchAll(env, s, root, auth, targets).value) != []
    ensures targets != []
    ensures var k := |targets| - 1;
            && MatchAll(env, s, root, auth, targets[..k]).Ok? && Parse(env.re, targets[k]).Ok?
            && MatchAll(env, s, root, auth, targets).value
               == MatchAll(env, s, root, auth, targets[..k]).value + Evaluate(env, s, root, auth, Parse(env.re, targets[k]).value)
  {
    hide Parse, Evaluate;
  }

  /** What the last target adds to the report no target before it matches. */
  lemma NewInReport(env: Engine, s: Snap, root: Node, auth: Option<Checker>, targets: seq<Bytes>, i: nat)
    requires MatchAll(env, s, root, auth, targets).Ok? && targets != []
    requires |FirstSeen(MatchAll(env, s, root, auth, targets[..|targets| - 1]).value)| <= i
             < |FirstSeen(MatchAll(env, s, root, auth, targets).value)|
    ensures FirstHit(env, s, root, auth, targets, |targets| - 1, FirstSeen(MatchAll(env, s, root, auth, targets).value)[i])
  {
    hide Parse, Evaluate, TouchAll, NoDup;
    var k := |targets| - 1;
    var r := FirstSeen(MatchAll(env, s, root, auth, targets).value);
    assert r != [];
    MatchAllUnfolds(env, s, root, auth, targets);
    var before := MatchAll(env, s, root, auth, targets[..k]).value;
    var found := Evaluate(env, s, root, auth, Parse(env.re, targets[k]).value);
    TouchAllConcat([], before, found);
    TouchedIn(FirstSeen(before), found, i);
    TouchedPrefix(FirstSeen(before), found);
    FirstSeenMembers(MatchAll(env, s, root, auth, targets).value);
    NotBefore(r, |FirstSeen(before)|, i);
    FirstSeenMember(before, r[i]);
    MatchAllMembers(env, s, root, auth, targets[..k], r[i]);
    forall b | 0 <= b < k
      ensures !Hits(env, s, root, auth, targets[b], r[i])
    {
      assert targets[..k][b] == targets[b];
    }
  }

  lemma NotBefore(r: seq<Node>, k: nat, i: nat)
    requires NoDup(r) && k <= i < |r|
    ensures r[i] !in r[..k]
  {
  }

  lemma {:induction false} OldInReport(env: Engine, s: Snap, root: Node, auth: Option<Checker>, targets: seq<Bytes>,
                                       i: nat)
    returns (a: nat)
    requires MatchAll(env, s, root, auth, targets).Ok?
    requires i < |FirstSeen(MatchAll(env, s, root, auth, targets).value)|
    ensures FirstHit(env, s, root, auth, targets, a, FirstSeen(MatchAll(env, s, root, auth, targets).value)[i])
  {
    hide Parse, Evaluate, TouchAll;
    MatchAllUnfolds(env, s, root, auth, targets);
    var k := |targets| - 1;
    var before := MatchAll(env, s, root, auth, targets[..k]).value;
    var found := Evaluate(env, s, root, auth, Parse(env.re, targets[k]).value);
    TouchAllConcat([], before, found);
    TouchedPrefix(FirstSeen(before), found);
    if i < |FirstSeen(before)| {
      a := OldInReport(env, s, root, auth, targets[..k], i);
      FirstHitStays(env, s, root, auth, targets, a, FirstSeen(before)[i]);
    } else {
      a := k;
      NewInReport(env, s, root, auth, targets, i);
    }
  }

  // --- Create ----------------------------------------------------------------------------------

  /**
   * Where a Create puts its node: under the staging node if no parent is named, else under
   * the one node that the expression matches, if it is the staging node or descends from it;
   * in every other case it fails, and never for lack of permission.
   */
  lemma CreatePlaces(env: Engine, s: Snap, root: Node, auth: Option<Checker>, staging: Node, parentExpr: Bytes)
    requires Inv(s, root)
    ensures var r := CreateParent(env, s, root, auth, staging, parentExpr);
            && r != Err(Denied)
            && (parentExpr == [] ==> r == Ok(staging))
            && (parentExpr != [] ==>
                  match LedTo(env, s, root, auth, parentExpr)
                  case None => r.Err?
                  case Some(n) =>
                    && Grounded(s, n)
                    && (if n == staging || Descends(s, staging, n) then r == Ok(n) else r == Err(NotStaged)))
  {
    hide Inv, LedTo, Grounded, ResolveOne;
    if parentExpr != [] {
      ResolvesTo(env, s, root, auth, parentExpr);
    }
  }
}
