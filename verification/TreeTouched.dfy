/**
 * The nodes a Set or a Delete reports back: each once, in first-touch order, after
 * goimpl/internal/tree/tree.go:907-913 and 995-1009.
 */
module TreeTouched {
  import opened Basics
  import opened WireTypes
  import opened TreeState
  import opened TreeRead
  import opened TreeSet

  /** xs touched one after the other, acc having been touched before. */
  function TouchAll(acc: seq<Node>, xs: seq<Node>): seq<Node> {
    if xs == [] then acc else Touch(TouchAll(acc, xs[..|xs| - 1]), xs[|xs| - 1])
  }

  /** The entries of xs, each once, where it first occurs. */
  function FirstSeen(xs: seq<Node>): seq<Node> {
    TouchAll([], xs)
  }

  lemma {:induction false} TouchAllConcat(acc: seq<Node>, xs: seq<Node>, ys: seq<Node>)
    ensures TouchAll(acc, xs + ys) == TouchAll(TouchAll(acc, xs), ys)
  {
    if ys == [] {
      assert xs + ys == xs;
    } else {
      var n := |ys| - 1;
      TouchAllConcat(acc, xs, ys[..n]);
      assert (xs + ys)[..|xs + ys| - 1] == xs + ys[..n];
    }
  }

  lemma TouchMembers(xs: seq<Node>, n: Node)
    requires NoDup(xs)
    ensures NoDup(Touch(xs, n)) && forall m :: m in Touch(xs, n) <==> m in xs || m == n
  {
    if n !in xs {
      NoDupSnoc(xs, n);
    }
  }

  /** FirstSeen has xs's entries, none twice. */
  lemma {:induction false} FirstSeenMembers(xs: seq<Node>)
    ensures NoDup(FirstSeen(xs)) && forall n :: n in FirstSeen(xs) <==> n in xs
  {
    if xs != [] {
      hide NoDup, Touch;
      var init, last := xs[..|xs| - 1], xs[|xs| - 1];
      FirstSeenMembers(init);
      TouchMembers(FirstSeen(init), last);
      assert forall n :: n in xs <==> n in init || n == last;
    }
  }

  lemma FirstSeenMember(xs: seq<Node>, n: Node)
    ensures n in FirstSeen(xs) <==> n in xs
  {
    FirstSeenMembers(xs);
  }

  lemma {:induction false} IndexOfInit(xs: seq<Node>, y: Node, x: Node)
    ensures x in xs ==> IndexOf(xs + [y], x) == IndexOf(xs, x)
    ensures x !in xs && x == y ==> IndexOf(xs + [y], x) == |xs|
  {
    if xs != [] {
      assert (xs + [y])[1..] == xs[1..] + [y];
      IndexOfInit(xs[1..], y, x);
    }
  }

  /** FirstSeen keeps the order of first occurrences. */
  lemma {:induction false} FirstSeenOrder(xs: seq<Node>, i: nat, j: nat)
    requires i < j < |FirstSeen(xs)|
    ensures 0 <= IndexOf(xs, FirstSeen(xs)[i]) < IndexOf(xs, FirstSeen(xs)[j])
  {
    hide NoDup, IndexOf;
    var init, last := xs[..|xs| - 1], xs[|xs| - 1];
    assert xs == init + [last];
    var before, after := FirstSeen(init), FirstSeen(xs);
    FirstSeenMembers(init);
    assert before[i] in before && after[i] == before[i];
    IndexOfInit(init, last, before[i]);
    if j < |before| {
      FirstSeenOrder(init, i, j);
      assert before[j] in before;
      IndexOfInit(init, last, before[j]);
    } else {
      IndexOfInit(init, last, last);
      assert IndexOf(init, before[i]) < |init|;
    }
  }

  // --- what a Set touches ------------------------------------------------------------------

  /** What one plan writes to, in order: value targets, then the target of each structural edit. */
  function Touches(p: Plan): seq<Node>
    requires p.Structural() ==> |p.targets| == 1
  {
    (if p.newValue.Some? then p.targets else [])
    + (if p.first.Some? then p.targets else [])
    + (if p.next.Some? then p.targets else [])
    + (if p.newParent.Some? then p.targets else [])
  }

  ghost function AllTouches(keys: set<Node>, plans: seq<Plan>): seq<Node>
    requires PlansOk(keys, plans)
  {
    if plans == [] then [] else AllTouches(keys, plans[..|plans| - 1]) + Touches(plans[|plans| - 1])
  }

  lemma {:induction false} WriteValuesTouches(a: Applying, ts: seq<Node>, v: NodeValue)
    ensures WriteValues(a, ts, v).touched == TouchAll(a.touched, ts)
  {
    if ts != [] {
      WriteValuesTouches(a, ts[..|ts| - 1], v);
    }
  }

  lemma TouchOne(acc: seq<Node>, ts: seq<Node>)
    requires |ts| == 1
    ensures TouchAll(acc, ts) == Touch(acc, ts[0])
  {
    assert ts[..0] == [];
  }

  lemma StepTouches(a: Applying, t: Node, other: Node?)
    ensures ApplyFirst(a, t, other).Done? ==> ApplyFirst(a, t, other).a.touched == Touch(a.touched, t)
    ensures ApplyNext(a, t, other).Done? ==> ApplyNext(a, t, other).a.touched == Touch(a.touched, t)
    ensures other != null && ApplyMove(a, t, other).Done? ==> ApplyMove(a, t, other).a.touched == Touch(a.touched, t)
  {
    hide RelinkFirst, RelinkNext, Moved, Touch, IndexOf;
  }

  lemma PlanTouches(a: Applying, p: Plan)
    requires (p.Structural() ==> |p.targets| == 1) && ApplyPlan(a, p).Done?
    ensures ApplyPlan(a, p).a.touched == TouchAll(a.touched, Touches(p))
  {
    hide WriteValues, ApplyFirst, ApplyNext, ApplyMove, TouchAll, Touch;
    var ts := p.targets;
    var v := if p.newValue.Some? then ts else [];
    var f := if p.first.Some? then ts else [];
    var x := if p.next.Some? then ts else [];
    var m := if p.newParent.Some? then ts else [];
    NothingTouched(a.touched, p, v, f, x, m);
    if p.newValue.Some? {
      WriteValuesTouches(a, ts, p.newValue.value);
    }
    var a1 := if p.newValue.Some? then WriteValues(a, ts, p.newValue.value) else a;
    assert a1.touched == TouchAll(a.touched, v);
    var o2 := if p.first.Some? then ApplyFirst(a1, ts[0], p.first.value) else Done(a1);
    if p.first.Some? {
      StepTouches(a1, ts[0], p.first.value);
      TouchOne(a1.touched, ts);
    }
    var o3 := if p.next.Some? then ApplyNext(o2.a, ts[0], p.next.value) else o2;
    if p.next.Some? {
      StepTouches(o2.a, ts[0], p.next.value);
      TouchOne(o2.a.touched, ts);
    }
    if p.newParent.Some? {
      StepTouches(o3.a, ts[0], p.newParent.value);
      TouchOne(o3.a.touched, ts);
    }
  }

  lemma NothingTouched(acc: seq<Node>, p: Plan, v: seq<Node>, f: seq<Node>, x: seq<Node>, m: seq<Node>)
    ensures TouchAll(TouchAll(TouchAll(TouchAll(acc, v), f), x), m) == TouchAll(acc, v + f + x + m)
    ensures forall a :: TouchAll(a, []) == a
  {
    TouchAllConcat(acc, v, f);
    TouchAllConcat(acc, v + f, x);
    TouchAllConcat(acc, v + f + x, m);
  }

  /** A successful Set reports each node it wrote to once, in the order of their first writes. */
  lemma {:induction false} TouchedIsFirstSeen(s: Snap, plans: seq<Plan>)
    requires PlansOk(s.Keys, plans) && Apply(s, plans).Done?
    ensures Apply(s, plans).a.touched == FirstSeen(AllTouches(s.Keys, plans))
  {
    hide ApplyPlan, Touches;
    if plans != [] {
      var n := |plans| - 1;
      TouchedIsFirstSeen(s, plans[..n]);
      PlanTouches(Apply(s, plans[..n]).a, plans[n]);
      TouchAllConcat([], AllTouches(s.Keys, plans[..n]), Touches(plans[n]));
      hide TouchAll;
    }
  }
}
