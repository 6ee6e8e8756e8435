/**
 * Set as its callers know it: which requests keep the tree invariant, and that no
 * node is cut loose or written without the permission that was checked beforehand.
 */
module TreeSetTheorems {
  import opened Basics
  import opened WireTypes
  import opened Expression
  import opened Authz
  import opened TreeState
  import opened TreeRead
  import opened TreeSet
  import opened TreeSetSafety
  import opened TreePlan
  import opened UndoLog

  // --- lists only ever lose entries -----------------------------------------------------

  /** K holds entries of L, in L's order. */
  ghost predicate OrderedIn(L: seq<Node>, K: seq<Node>) {
    && (forall i :: 0 <= i < |K| ==> K[i] in L)
    && (forall i, j :: 0 <= i < j < |K| ==> IndexOf(L, K[i]) < IndexOf(L, K[j]))
  }

  lemma IndexOfAt(xs: seq<Node>, i: nat)
    requires NoDup(xs) && i < |xs|
    ensures IndexOf(xs, xs[i]) == i
  {
  }

  lemma OrderedSelf(L: seq<Node>)
    requires NoDup(L)
    ensures OrderedIn(L, L)
  {
    forall i | 0 <= i < |L|
      ensures IndexOf(L, L[i]) == i
    {
      IndexOfAt(L, i);
    }
  }

  /** Since the request began only relinks have happened: same parents, lists with entries missing. */
  ghost predicate Relinked(s0: Snap, s: Snap) {
    && s.Keys == s0.Keys
    && (forall n :: n in s0 ==> ParentOf(s, n) == ParentOf(s0, n))
    && (forall n :: n in s0 ==> OrderedIn(KidsOf(s0, n), KidsOf(s, n)))
  }

  /** What has gone from a list is in D. */
  ghost predicate LostOnly(s0: Snap, s: Snap, D: set<Node>) {
    forall n, c :: n in s0 && c in KidsOf(s0, n) ==> c in KidsOf(s, n) || c in D
  }

  lemma SuffixOrdered(L: seq<Node>, K: seq<Node>, i: nat)
    requires OrderedIn(L, K) && i <= |K|
    ensures OrderedIn(L, K[i..])
  {
    hide IndexOf;
    assert forall j :: 0 <= j < |K[i..]| ==> K[i..][j] == K[i + j];
  }

  /** The entries a suffix leaves out lie before it in the original list too. */
  lemma SuffixLoses(L: seq<Node>, K: seq<Node>, i: nat, x: Node)
    requires OrderedIn(L, K) && i < |K| && x in K
    ensures x in K[i..] || (x in L && IndexOf(L, x) < IndexOf(L, K[i]))
  {
    hide IndexOf;
    var k :| 0 <= k < |K| && K[k] == x;
    if k >= i {
      assert K[i..][k - i] == x;
    } else {
      assert IndexOf(L, K[k]) < IndexOf(L, K[i]);
    }
  }

  lemma SpliceOrdered(L: seq<Node>, K: seq<Node>, i: nat, j: nat)
    requires OrderedIn(L, K) && i < j <= |K|
    ensures OrderedIn(L, K[..i + 1] + K[j..])
  {
    hide IndexOf;
    var r := K[..i + 1] + K[j..];
    assert forall k :: 0 <= k < |r| ==> r[k] == if k <= i then K[k] else K[k - i - 1 + j];
  }

  /** The entries a splice leaves out lie between its ends in the original list too. */
  lemma SpliceLoses(L: seq<Node>, K: seq<Node>, i: nat, j: nat, x: Node)
    requires OrderedIn(L, K) && i < j <= |K| && x in K
    ensures x in K[..i + 1] + K[j..] ||
            (x in L && IndexOf(L, K[i]) < IndexOf(L, x) && (j < |K| ==> IndexOf(L, x) < IndexOf(L, K[j])))
  {
    hide IndexOf;
    var k :| 0 <= k < |K| && K[k] == x;
    if k <= i {
      assert K[..i + 1][k] == x;
    } else if k >= j {
      assert K[j..][k - j] == x;
    } else {
      assert IndexOf(L, K[i]) < IndexOf(L, K[k]);
    }
  }

  lemma OrderedIndices(L: seq<Node>, K: seq<Node>, i: nat, j: nat)
    requires OrderedIn(L, K) && i < |K| && j < |K|
    ensures i < j <==> IndexOf(L, K[i]) < IndexOf(L, K[j])
  {
    hide IndexOf;
    if j < i {
      assert IndexOf(L, K[j]) < IndexOf(L, K[i]);
    }
  }

  lemma InSlice(L: seq<Node>, x: Node, lo: nat, hi: nat)
    requires x in L && lo <= IndexOf(L, x) < hi <= |L|
    ensures x in L[lo..hi]
  {
    assert L[lo..hi][IndexOf(L, x) - lo] == x;
  }

  lemma RelistRelinked(s0: Snap, s: Snap, n: Node, kids: seq<Node>, D: set<Node>, E: set<Node>)
    requires Relinked(s0, s) && LostOnly(s0, s, D)
    requires n in s0 ==> OrderedIn(KidsOf(s0, n), kids)
    requires forall c :: c in KidsOf(s, n) ==> c in kids || c in E
    ensures Relinked(s0, WithChildren(s, n, kids)) && LostOnly(s0, WithChildren(s, n, kids), D + E)
  {
    hide OrderedIn;
  }

  lemma InDroppedByFirst(s0: Snap, t: Node, first: Node, x: Node)
    requires var L := KidsOf(s0, t); x in L && first in L && IndexOf(L, x) < IndexOf(L, first)
    ensures x in Members(DroppedByFirst(s0, t, first))
  {
    var L := KidsOf(s0, t);
    InSlice(L, x, 0, IndexOf(L, first));
    assert L[0..IndexOf(L, first)] == L[..IndexOf(L, first)];
  }

  lemma InDroppedByNext(s0: Snap, t: Node, next: Node?, x: Node)
    requires ParentOf(s0, t) != null
    requires var L := KidsOf(s0, ParentOf(s0, t));
             && t in L && x in L && IndexOf(L, t) < IndexOf(L, x)
             && (next != null ==> next in L && IndexOf(L, x) < IndexOf(L, next))
    ensures x in Members(DroppedByNext(s0, t, next))
  {
    var L := KidsOf(s0, ParentOf(s0, t));
    if next == null {
      InSlice(L, x, IndexOf(L, t) + 1, |L|);
      assert L[IndexOf(L, t) + 1..|L|] == L[IndexOf(L, t) + 1..];
    } else {
      InSlice(L, x, IndexOf(L, t) + 1, IndexOf(L, next));
    }
  }

  /** A first-child relink loses at most what was planned for it, however the list has changed since. */
  lemma RelinkFirstLoses(s0: Snap, s: Snap, t: Node, first: Node?, D: set<Node>)
    requires Relinked(s0, s) && LostOnly(s0, s, D) && t in s0 && RelinkFirst(s, t, first).Ok?
    ensures var s' := RelinkFirst(s, t, first).value;
            Relinked(s0, s') && LostOnly(s0, s', D + Members(DroppedByFirst(s0, t, first)))
  {
    var L, K := KidsOf(s0, t), KidsOf(s, t);
    assert OrderedIn(L, K);
    hide LostOnly, IndexOf, Relinked, DroppedByFirst, Members;
    var E := Members(DroppedByFirst(s0, t, first));
    if first == null {
      ClearDrops(s0, t, L, K);
      EmptyOrdered(L);
      RelistRelinked(s0, s, t, [], D, E);
    } else {
      var i := IndexOf(K, first);
      SuffixOrdered(L, K, i);
      forall c | c in K
        ensures c in K[i..] || c in E
      {
        SuffixLoses(L, K, i, c);
        if c !in K[i..] {
          FirstInList(L, K, i);
          InDroppedByFirst(s0, t, first, c);
        }
      }
      RelistRelinked(s0, s, t, K[i..], D, E);
    }
  }

  lemma FirstInList(L: seq<Node>, K: seq<Node>, i: nat)
    requires OrderedIn(L, K) && i < |K|
    ensures K[i] in L
  {
  }

  lemma EmptyOrdered(L: seq<Node>)
    ensures OrderedIn(L, [])
  {
  }

  lemma ClearDrops(s0: Snap, t: Node, L: seq<Node>, K: seq<Node>)
    requires L == KidsOf(s0, t) && OrderedIn(L, K)
    ensures forall c :: c in K ==> c in Members(DroppedByFirst(s0, t, null))
  {
    hide IndexOf;
  }

  lemma RelinkNextParts(s: Snap, t: Node, next: Node?)
    requires RelinkNext(s, t, next).Ok?
    ensures ParentOf(s, t) != null
    ensures var K := KidsOf(s, ParentOf(s, t));
            var i := IndexOf(K, t);
            && 0 <= i && K[i] == t
            && (next != null ==> IndexOf(K, next) >= 0 && K[IndexOf(K, next)] == next)
            && RelinkNext(s, t, next).value
               == WithChildren(s, ParentOf(s, t), K[..i + 1] + (if next == null then [] else K[IndexOf(K, next)..]))
  {
    hide WithChildren, KidsOf, ParentOf;
    var K := KidsOf(s, ParentOf(s, t));
    assert K[..IndexOf(K, t) + 1] + [] == K[..IndexOf(K, t) + 1];
  }

  lemma RelinkedParts(s0: Snap, s: Snap, t: Node)
    requires Relinked(s0, s) && t in s0
    ensures ParentOf(s, t) == ParentOf(s0, t)
    ensures ParentOf(s, t) != null ==> OrderedIn(KidsOf(s0, ParentOf(s, t)), KidsOf(s, ParentOf(s, t)))
  {
    hide OrderedIn;
    var p := ParentOf(s, t);
    if p != null && p !in s0 {
      EmptyOrdered([]);
    }
  }

  /** Where the two ends of a sibling relink lie in the list as it is now. */
  lemma NextEnds(s0: Snap, s: Snap, t: Node, next: Node?) returns (K: seq<Node>, i: nat, j: nat)
    requires Relinked(s0, s) && t in s0 && RelinkNext(s, t, next).Ok? && Forward(s0, t, next)
    ensures ParentOf(s, t) != null && ParentOf(s0, t) == ParentOf(s, t) && K == KidsOf(s, ParentOf(s, t))
    ensures OrderedIn(KidsOf(s0, ParentOf(s, t)), K)
    ensures i < j <= |K| && K[i] == t && (if next == null then j == |K| else j < |K| && K[j] == next)
    ensures Forward(s, t, next)
    ensures RelinkNext(s, t, next).value == WithChildren(s, ParentOf(s, t), K[..i + 1] + K[j..])
  {
    hide IndexOf, Relinked, OrderedIn, WithChildren, RelinkNext, KidsOf, ParentOf;
    RelinkNextParts(s, t, next);
    RelinkedParts(s0, s, t);
    K := KidsOf(s, ParentOf(s, t));
    i := IndexOf(K, t);
    if next == null {
      j := |K|;
      assert K[|K|..] == [];
    } else {
      j := IndexOf(K, next);
      OrderedIndices(KidsOf(s0, ParentOf(s, t)), K, i, j);
    }
  }

  lemma NextDrops(s0: Snap, t: Node, next: Node?, K: seq<Node>, i: nat, j: nat, c: Node)
    requires ParentOf(s0, t) != null && OrderedIn(KidsOf(s0, ParentOf(s0, t)), K)
    requires i < j <= |K| && K[i] == t && (if next == null then j == |K| else j < |K| && K[j] == next)
    requires c in K && c !in K[..i + 1] + K[j..]
    ensures c in Members(DroppedByNext(s0, t, next))
  {
    hide IndexOf, OrderedIn, DroppedByNext, Members;
    var L := KidsOf(s0, ParentOf(s0, t));
    SpliceLoses(L, K, i, j, c);
    FirstInList(L, K, i);
    if next != null {
      FirstInList(L, K, j);
    }
    InDroppedByNext(s0, t, next, c);
  }

  /** The same for a next-sibling relink, which also still finds its sibling ahead of the target. */
  lemma RelinkNextLoses(s0: Snap, s: Snap, t: Node, next: Node?, D: set<Node>)
    requires Relinked(s0, s) && LostOnly(s0, s, D) && t in s0 && RelinkNext(s, t, next).Ok?
    requires Forward(s0, t, next)
    ensures Forward(s, t, next)
    ensures var s' := RelinkNext(s, t, next).value;
            Relinked(s0, s') && LostOnly(s0, s', D + Members(DroppedByNext(s0, t, next)))
  {
    hide LostOnly, IndexOf, Relinked, DroppedByNext, Members, OrderedIn, RelinkNext, Forward, KidsOf;
    var p := ParentOf(s, t);
    var K, i, j := NextEnds(s0, s, t, next);
    SpliceOrdered(KidsOf(s0, p), K, i, j);
    var E := Members(DroppedByNext(s0, t, next));
    forall c | c in K
      ensures c in K[..i + 1] + K[j..] || c in E
    {
      if c !in K[..i + 1] + K[j..] {
        NextDrops(s0, t, next, K, i, j, c);
      }
    }
    RelistRelinked(s0, s, p, K[..i + 1] + K[j..], D, E);
  }

  // --- one relink, exactly ----------------------------------------------------------------

  lemma SuffixMembers(K: seq<Node>, i: nat, c: Node)
    requires NoDup(K) && i <= |K|
    ensures c in K[i..] <==> c in K && c !in K[..i]
  {
    assert K == K[..i] + K[i..];
    if c in K[i..] {
      var a :| 0 <= a < |K[i..]| && K[i..][a] == c;
      assert K[i + a] == c;
    }
  }

  /** A first-child relink on its own drops exactly what droppedByFirstChild lists, and the child named comes first. */
  lemma RelinkFirstExact(s: Snap, root: Node, t: Node, first: Node?, c: Node)
    requires Inv(s, root) && t in s && RelinkFirst(s, t, first).Ok?
    ensures var s' := RelinkFirst(s, t, first).value;
            && t in s' && (c in s'[t].children <==> c in s[t].children && c !in DroppedByFirst(s, t, first))
            && (if first == null then s'[t].children == [] else s'[t].children != [] && s'[t].children[0] == first)
            && s' == s[t := s[t].(children := s'[t].children)]
  {
    hide IndexOf, Acyclic, Closed, Owned;
    var K := s[t].children;
    if first != null {
      SuffixMembers(K, IndexOf(K, first), c);
    }
  }

  lemma SpliceMembers(K: seq<Node>, i: nat, j: nat, c: Node)
    requires NoDup(K) && i < j <= |K|
    ensures c in K[..i + 1] + K[j..] <==> c in K && c !in K[i + 1..j]
  {
    assert K == K[..i + 1] + K[i + 1..j] + K[j..];
    if c in K[i + 1..j] {
      var b :| 0 <= b < |K[i + 1..j]| && K[i + 1..j][b] == c;
      assert K[i + 1 + b] == c;
    }
  }

  /** The two ends of the stretch that a forward relink drops, and the list it leaves. */
  lemma NextStretch(s: Snap, root: Node, t: Node, next: Node?) returns (i: nat, j: nat)
    requires Inv(s, root) && t in s && RelinkNext(s, t, next).Ok? && Forward(s, t, next)
    ensures var p := s[t].parent;
            && p != null && p in s
            && var K := s[p].children;
               && NoDup(K) && i < j <= |K| && K[i] == t && (next == null ==> j == |K|) && (next != null ==> j < |K| && K[j] == next)
               && DroppedByNext(s, t, next) == K[i + 1..j]
               && RelinkNext(s, t, next).value == s[p := s[p].(children := K[..i + 1] + K[j..])]
  {
    hide IndexOf, Acyclic, Owned;
    RelinkNextParts(s, t, next);
    var K := KidsOf(s, s[t].parent);
    i := IndexOf(K, t);
    j := if next == null then |K| else IndexOf(K, next);
    assert K[|K|..] == [] && K[i + 1..|K|] == K[i + 1..];
    assert K[..i + 1] + [] == K[..i + 1];
  }

  /** A forward next-sibling relink on its own drops exactly what droppedByNextSibling lists, and the sibling named follows. */
  lemma RelinkNextExact(s: Snap, root: Node, t: Node, next: Node?, c: Node) returns (at: nat)
    requires Inv(s, root) && t in s && RelinkNext(s, t, next).Ok? && Forward(s, t, next)
    ensures var s', p := RelinkNext(s, t, next).value, s[t].parent;
            && p != null && p in s && p in s'
            && (c in s'[p].children <==> c in s[p].children && c !in DroppedByNext(s, t, next))
            && s' == s[p := s[p].(children := s'[p].children)]
            && at < |s'[p].children| && s'[p].children[at] == t
            && (if next == null then at == |s'[p].children| - 1
                else at + 1 < |s'[p].children| && s'[p].children[at + 1] == next)
  {
    hide RelinkNext, DroppedByNext, Forward, Inv, NoDup;
    var i, j := NextStretch(s, root, t, next);
    SpliceMembers(s[s[t].parent].children, i, j, c);
    at := i;
  }

  /**
   * The conflicts that need an earlier edit in the same request: while its nodes are
   * reachable, no relink finds them gone from their parent's list.
   */
  lemma GoneNeedsAnEarlierEdit(s: Snap, root: Node, t: Node, other: Node?)
    requires Inv(s, root) && t in s && Below(s, root, t) && (other != null ==> other in s && Below(s, root, other))
    ensures RelinkFirst(s, t, other) != Err(Gone) && RelinkNext(s, t, other) != Err(Gone)
  {
    hide Below, IndexOf;
    BelowParent'(s, root, root, t);
    RootHasNoParent(s, root);
    if other != null {
      BelowParent'(s, root, root, other);
    }
  }

  // --- whole requests without moves ---------------------------------------------------------

  /** The nodes an edit was planned to drop. */
  function PlannedDrops(s0: Snap, p: Plan): set<Node>
    requires p.Structural() ==> |p.targets| == 1
  {
    (if p.first.Some? then Members(DroppedByFirst(s0, p.targets[0], p.first.value)) else {})
    + (if p.next.Some? then Members(DroppedByNext(s0, p.targets[0], p.next.value)) else {})
  }

  ghost function AllPlannedDrops(s0: Snap, plans: seq<Plan>): set<Node>
    requires PlansOk(s0.Keys, plans)
  {
    if plans == [] then {} else AllPlannedDrops(s0, plans[..|plans| - 1]) + PlannedDrops(s0, plans[|plans| - 1])
  }

  /** Each newNextSibling lies after its target in the tree before the request. */
  ghost predicate AllForward(s0: Snap, plans: seq<Plan>)
    requires PlansOk(s0.Keys, plans)
  {
    forall i :: 0 <= i < |plans| && plans[i].next.Some? ==> Forward(s0, plans[i].targets[0], plans[i].next.value)
  }

  ghost predicate NoMoves(plans: seq<Plan>) {
    forall i :: 0 <= i < |plans| ==> plans[i].newParent.None?
  }

  /** The stages of one plan, begun from a tree that has only been relinked. */
  lemma StagesLose(s0: Snap, a: Applying, p: Plan, D: set<Node>)
    requires Relinked(s0, a.s) && LostOnly(s0, a.s, D) && PlanOk(s0.Keys, p)
    requires p.next.Some? ==> Forward(s0, p.targets[0], p.next.value)
    ensures Relinked(s0, AfterValues(a, p).s)
    ensures AfterFirst(a, p).Done? ==> Relinked(s0, AfterFirst(a, p).a.s)
    ensures AfterNext(a, p).Done? ==>
              && Relinked(s0, AfterNext(a, p).a.s) && LostOnly(s0, AfterNext(a, p).a.s, D + PlannedDrops(s0, p))
              && (p.next.Some? ==> Forward(AfterFirst(a, p).a.s, p.targets[0], p.next.value))
  {
    hide WriteValues, RelinkFirst, RelinkNext, Relinked, LostOnly, DroppedByFirst, DroppedByNext, Forward;
    WritesRelinked(s0, a, p, D);
    var s1 := AfterValues(a, p).s;
    var o := AfterFirst(a, p);
    if o.Done? {
      var D1 := D + (if p.first.Some? then Members(DroppedByFirst(s0, p.targets[0], p.first.value)) else {});
      if p.first.Some? {
        RelinkFirstLoses(s0, s1, p.targets[0], p.first.value, D);
      } else {
        assert D1 == D;
      }
      if AfterNext(a, p).Done? {
        if p.next.Some? {
          RelinkNextLoses(s0, o.a.s, p.targets[0], p.next.value, D1);
          assert D1 + Members(DroppedByNext(s0, p.targets[0], p.next.value)) == D + PlannedDrops(s0, p);
        } else {
          assert D1 == D + PlannedDrops(s0, p);
        }
      }
    }
  }

  lemma WritesRelinked(s0: Snap, a: Applying, p: Plan, D: set<Node>)
    requires Relinked(s0, a.s) && LostOnly(s0, a.s, D)
    ensures Relinked(s0, AfterValues(a, p).s) && LostOnly(s0, AfterValues(a, p).s, D)
  {
    if p.newValue.Some? {
      hide WriteValues, OrderedIn;
      WriteValuesFields(a, p.targets, p.newValue.value);
    }
  }

  lemma StartRelinked(s0: Snap, root: Node)
    requires Inv(s0, root)
    ensures Relinked(s0, s0) && LostOnly(s0, s0, {})
  {
    hide OrderedIn;
    forall n | n in s0
      ensures OrderedIn(KidsOf(s0, n), KidsOf(s0, n))
    {
      OrderedSelf(KidsOf(s0, n));
    }
  }

  /** Without moves, every step only drops planned nodes, and every sibling relink is met ahead of its target. */
  lemma {:induction false} RelinksLoseOnlyPlanned(root: Node, s0: Snap, plans: seq<Plan>)
    requires Inv(s0, root) && PlansOk(s0.Keys, plans) && AllForward(s0, plans) && NoMoves(plans)
    ensures Careful(root, s0, plans)
    ensures var o := Apply(s0, plans);
            o.Done? ==> Relinked(s0, o.a.s) && LostOnly(s0, o.a.s, AllPlannedDrops(s0, plans))
  {
    hide Relinked, LostOnly, ApplyPlan, PlannedDrops, Forward, Inv, AfterFirst, AfterNext;
    if plans == [] {
      StartRelinked(s0, root);
    } else {
      var n := |plans| - 1;
      RelinksLoseOnlyPlanned(root, s0, plans[..n]);
      var o := Apply(s0, plans[..n]);
      if o.Done? {
        StagesLose(s0, o.a, plans[n], AllPlannedDrops(s0, plans[..n]));
        PlanStages(o.a, plans[n]);
      }
    }
  }

  // --- permissions ------------------------------------------------------------------------------

  ghost predicate AllSound(s: Snap, root: Node, auth: Option<Checker>, plans: seq<Plan>)
    requires Inv(s, root)
  {
    forall i :: 0 <= i < |plans| ==> Sound(s, root, auth, plans[i])
  }

  lemma {:induction false} PlannedDropsAllowed(s: Snap, root: Node, auth: Option<Checker>, plans: seq<Plan>, n: Node,
                                               m: Node)
    requires Inv(s, root) && PlansOk(s.Keys, plans) && AllSound(s, root, auth, plans)
    requires n in AllPlannedDrops(s, plans) && m in s && Below(s, n, m)
    ensures May(s, auth, OpDelete, m)
  {
    hide Inv, May, Below, DroppedByFirst, DroppedByNext;
    var k := |plans| - 1;
    if n in AllPlannedDrops(s, plans[..k]) {
      PlannedDropsAllowed(s, root, auth, plans[..k], n, m);
    } else {
      assert n in PlannedDrops(s, plans[k]) && Sound(s, root, auth, plans[k]);
    }
  }

  /** A node cut loose hangs below one that a list lost. */
  lemma {:induction false} CutBelowLost(s0: Snap, s: Snap, root: Node, D: set<Node>, n: Node) returns (d: Node)
    requires Inv(s0, root) && s.Keys == s0.Keys && LostOnly(s0, s, D)
    requires n in s0 && Below(s0, root, n) && !Below(s, root, n)
    ensures d in D && Below(s0, d, n)
    decreases Height(s0, n)
  {
    if n == root {
      BelowSelf(s, root);
    }
    BelowParent(s0, root, root, n);
    HeightStep(s0, n);
    var p := s0[n].parent;
    if Below(s, root, p) {
      if n in KidsOf(s, p) {
        BelowStep(s, root, p, n);
      }
      d := n;
      BelowSelf(s0, n);
    } else {
      d := CutBelowLost(s0, s, root, D, p);
      BelowStep(s0, d, p, n);
    }
  }

  /**
   * Every node that a successful Set makes unreachable had delete allowed on its
   * path before the request, however many of its relinks act on the same list.
   */
  lemma CutNodesWereDeletable(s: Snap, root: Node, auth: Option<Checker>, plans: seq<Plan>, n: Node)
    requires Inv(s, root) && PlansOk(s.Keys, plans) && AllSound(s, root, auth, plans)
    requires AllForward(s, plans) && NoMoves(plans) && Apply(s, plans).Done?
    requires n in ReachSet(s, root) && n !in ReachSet(Apply(s, plans).a.s, root)
    ensures May(s, auth, OpDelete, n)
  {
    hide Relinked, Apply, May, AllForward, AllSound, AllPlannedDrops, Careful;
    RelinksLoseOnlyPlanned(root, s, plans);
    ApplyKeepsKeys(s, plans);
    var s' := Apply(s, plans).a.s;
    var d := CutBelowLost(s, s', root, AllPlannedDrops(s, plans), n);
    PlannedDropsAllowed(s, root, auth, plans, d, n);
  }

  lemma {:induction false} OnMeansWritten<V>(w: seq<(Node, V)>, n: Node)
    ensures On(w, n) != [] ==> exists i :: 0 <= i < |w| && w[i].0 == n
  {
    if w != [] && On(w, n) != [] {
      var k := |w| - 1;
      if w[k].0 != n {
        OnMeansWritten(w[..k], n);
        var i :| 0 <= i < |w[..k]| && w[..k][i].0 == n;
        assert w[i].0 == n;
      }
    }
  }

  lemma {:induction false} WrittenIsTarget(plans: seq<Plan>, n: Node)
    ensures On(AllWrites(plans), n) != [] ==> exists i :: 0 <= i < |plans| && n in plans[i].targets && plans[i].newValue.Some?
  {
    if plans != [] && On(AllWrites(plans), n) != [] {
      var k := |plans| - 1;
      OnConcat(AllWrites(plans[..k]), ValueWrites(plans[k]), n);
      if On(AllWrites(plans[..k]), n) != [] {
        WrittenIsTarget(plans[..k], n);
        var i :| 0 <= i < |plans[..k]| && n in plans[..k][i].targets && plans[..k][i].newValue.Some?;
        assert plans[i] == plans[..k][i];
      } else {
        OnMeansWritten(ValueWrites(plans[k]), n);
        assert n in plans[k].targets;
      }
    }
  }

  /** Every node whose value a successful Set changes had write allowed on its path before the request. */
  lemma ChangedValuesWereWritable(s: Snap, root: Node, auth: Option<Checker>, plans: seq<Plan>, n: Node)
    requires Inv(s, root) && PlansOk(s.Keys, plans) && AllSound(s, root, auth, plans)
    requires Apply(s, plans).Done? && n in s && ValueOf(Apply(s, plans).a.s, n) != s[n].value
    ensures May(s, auth, OpWrite, n)
  {
    hide Apply, May, Inv;
    ApplyKeepsKeys(s, plans);
    SuccessWritesLast(s, plans, n);
    WrittenIsTarget(plans, n);
    var i :| 0 <= i < |plans| && n in plans[i].targets && plans[i].newValue.Some?;
    assert Sound(s, root, auth, plans[i]);
    InvGrounds(s, root, n);
  }

  /**
   * One session's Set leaves another session's subtree alone, whatever the policy:
   * a node whose path lies there keeps its value and stays reachable.
   */
  lemma OtherSessionsUntouched(env: Engine, s: Snap, root: Node, staging: Node?, policy: Option<Policy>, identity: Bytes,
                               own: Bytes, other: Bytes, edits: seq<SetEdit>, n: Node)
    requires Inv(s, root) && SLASH !in own && SLASH !in other && own != other
    requires n in ReachSet(s, root) && InSession(other, NodePath(s, n))
    requires var plans := PlanAll(env, s, root, staging, Some(SessionChecker(policy, identity, own)), edits);
             plans.Ok? ==> PlansOk(s.Keys, plans.value) && AllForward(s, plans.value) && NoMoves(plans.value)
    ensures var (s', r) := SetAs(env, s, root, staging, Some(SessionChecker(policy, identity, own)), edits);
            r.Ok? ==> n in ReachSet(s', root) && s'[n].value == s[n].value
  {
    var auth := Some(SessionChecker(policy, identity, own));
    var plans := PlanAll(env, s, root, staging, auth, edits);
    if plans.Ok? && Apply(s, plans.value).Done? {
      hide PlanAll, Apply, Inv, AllForward, NoMoves;
      InvGrounds(s, root, n);
      PlanAllSound(env, s, root, staging, auth, edits);
      OtherSessionsAreClosed(policy, identity, own, other, OpDelete, NodePath(s, n));
      OtherSessionsAreClosed(policy, identity, own, other, OpWrite, NodePath(s, n));
      ApplyKeepsKeys(s, plans.value);
      if n !in ReachSet(Apply(s, plans.value).a.s, root) {
        CutNodesWereDeletable(s, root, auth, plans.value, n);
      }
      if ValueOf(Apply(s, plans.value).a.s, n) != s[n].value {
        ChangedValuesWereWritable(s, root, auth, plans.value, n);
      }
    }
  }

  /**
   * A Set as a whole, error or not, from any tree that satisfies the invariant: what
   * may follow it. On any error, unless some node was written or moved twice in a way
   * that does not undo itself, the tree is exactly as before.
   */
  lemma SetOutcome(env: Engine, s: Snap, root: Node, staging: Node?, auth: Option<Checker>, edits: seq<SetEdit>)
    requires Inv(s, root)
    ensures var (s', r) := SetAs(env, s, root, staging, auth, edits);
            var plans := PlanAll(env, s, root, staging, auth, edits);
            && s'.Keys == s.Keys
            && ReachSet(s', root) <= ReachSet(s, root)
            && (plans.Err? ==> s' == s && r == Err(plans.error))
            && (plans.Ok? ==> PlansOk(s.Keys, plans.value))
            && (plans.Ok? && r.Ok? && Careful(root, s, plans.value) ==> Inv(s', root))
            && (plans.Ok? && r.Err? ==>
                  var k := FailsAt(s, plans.value);
                  s' == s <==> SelfUndoing(s, AllWrites(plans.value[..k + 1]), AllMoves(s.Keys, plans.value[..k])))
  {
    hide PlanAll, Apply, Careful, FailsAt, SelfUndoing, Inv, ReachSet, Rollback, AllWrites, AllMoves, PlansOk;
    var plans := PlanAll(env, s, root, staging, auth, edits);
    if plans.Ok? {
      PlanAllOk(env, s, root, staging, auth, edits);
      PlansReachable(env, s, root, staging, auth, edits);
      SetBringsNothingBack(root, s, plans.value);
      if Apply(s, plans.value).Conflict? {
        ConflictLeavesTreeUnchanged(s, plans.value);
        RollbackKeepsKeys(s, plans.value);
      } else {
        DoneKeepsInv(root, s, plans.value);
      }
    }
  }

  lemma DoneKeepsInv(root: Node, s: Snap, plans: seq<Plan>)
    requires PlansOk(s.Keys, plans) && Inv(s, root) && Apply(s, plans).Done?
    ensures Apply(s, plans).a.s.Keys == s.Keys
    ensures Careful(root, s, plans) ==> Inv(Apply(s, plans).a.s, root)
  {
    hide Apply, Careful, Inv, InvAlong, PlansOk;
    ApplyKeepsInv(root, s, plans);
  }

  lemma RollbackKeepsKeys(s: Snap, plans: seq<Plan>)
    requires PlansOk(s.Keys, plans) && Apply(s, plans).Conflict?
    ensures Rollback(Apply(s, plans).a).Keys == s.Keys
  {
    hide Tracks, Rollback;
    ApplyTracks(s, plans);
    var k := FailsAt(s, plans);
    RollbackParts(s, Apply(s, plans).a, AllWrites(plans[..k + 1]), AllMoves(s.Keys, plans[..k]));
  }

  lemma PlansReachable(env: Engine, s: Snap, root: Node, staging: Node?, auth: Option<Checker>, edits: seq<SetEdit>)
    requires Inv(s, root) && PlanAll(env, s, root, staging, auth, edits).Ok?
    ensures var plans := PlanAll(env, s, root, staging, auth, edits).value;
            forall i, t :: 0 <= i < |plans| && t in plans[i].targets ==> t in ReachSet(s, root)
  {
    hide PlanAll, Inv, ReachSet;
    PlanAllSound(env, s, root, staging, auth, edits);
  }
}
