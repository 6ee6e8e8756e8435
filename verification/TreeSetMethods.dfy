/**
 * Set and Delete as the code runs them on the heap, with their undo records, proved
 * against the specifications of TreeSet, TreePlan and TreeDelete.
 */
module TreeSetMethods {
  import opened Basics
  import opened WireTypes
  import opened Expression
  import opened Authz
  import opened TreeState
  import opened TreeRead
  import opened TreeSet
  import opened TreeSetSafety
  import opened TreeTouched
  import opened TreePlan
  import opened TreeSetTheorems
  import opened TreeDelete
  import opened TreeHeap

  // --- applying -------------------------------------------------------------------------

  /** What applySetPlans remembers: undo records, and the nodes touched so far. */
  class Journal {
    var values: seq<(Node, NodeValue)>
    var parents: seq<(Node, Node?)>
    var lists: map<Node, seq<Node>>
    var touched: seq<Node>
    var seen: set<Node>

    ghost predicate Valid()
      reads this
    {
      seen == Members(touched)
    }

    constructor ()
      ensures Valid() && values == [] && parents == [] && lists == map[] && touched == []
    {
      values, parents, lists, touched, seen := [], [], map[], [], {};
    }

    method AddTouched(n: Node)
      requires Valid()
      modifies this`touched, this`seen
      ensures Valid() && touched == Touch(old(touched), n)
    {
      if n !in seen {
        seen := seen + {n};
        touched := touched + [n];
      }
    }

    method RecordValue(n: Node)
      requires Valid()
      modifies this`values
      ensures Valid() && values == old(values) + [(n, n.value)]
    {
      values := values + [(n, n.value)];
    }

    method RecordParent(n: Node)
      requires Valid()
      modifies this`parents
      ensures Valid() && parents == old(parents) + [(n, n.parent)]
    {
      parents := parents + [(n, n.parent)];
    }

    method SnapshotChildren(n: Node)
      requires Valid()
      modifies this`lists
      ensures Valid()
      ensures lists == if n in old(lists) then old(lists) else old(lists)[n := n.children]
    {
      if n !in lists {
        lists := lists[n := n.children];
      }
    }
  }

  ghost function Now(t: Tree, j: Journal): Applying
    reads t, t.nodes, j
  {
    Applying(t.Snap(), j.values, j.parents, j.lists, j.touched)
  }

  method WriteTargets(t: Tree, j: Journal, targets: seq<Node>, value: NodeValue)
    requires j.Valid() && forall n :: n in targets ==> n in t.nodes
    modifies t.nodes, j
    ensures j.Valid() && Now(t, j) == WriteValues(old(Now(t, j)), targets, value)
  {
    hide Tree.Snap, WriteValues, WithValue, Touch, ValueOf, Journal.Valid;
    ghost var a := Now(t, j);
    WriteNothing(a, value);
    var i := 0;
    while i < |targets|
      invariant 0 <= i <= |targets| && j.Valid()
      invariant Now(t, j) == WriteValues(a, targets[..i], value)
    {
      var n := targets[i];
      t.Fields(n);
      WriteOneMore(a, targets[..i], n, value);
      assert targets[..i + 1] == targets[..i] + [n];
      j.RecordValue(n);
      t.SetValue(n, value);
      j.AddTouched(n);
      i := i + 1;
    }
    assert targets[..|targets|] == targets;
  }

  lemma WriteNothing(a: Applying, v: NodeValue)
    ensures WriteValues(a, [], v) == a
  {
  }

  lemma WriteOneMore(a: Applying, ts: seq<Node>, t: Node, v: NodeValue)
    ensures var b := WriteValues(a, ts, v);
            WriteValues(a, ts + [t], v)
            == b.(s := WithValue(b.s, t, v), values := b.values + [(t, ValueOf(b.s, t))], touched := Touch(b.touched, t))
  {
    assert (ts + [t])[..|ts|] == ts;
  }

  ghost predicate Leaves(t: Tree, j: Journal, o: Outcome, error: Option<SetError>)
    reads t, t.nodes, j
  {
    Now(t, j) == o.a && match o case Done(_) => error == None case Conflict(e, _) => error == Some(e)
  }

  method ApplyFirstChild(t: Tree, j: Journal, target: Node, first: Node?) returns (error: Option<SetError>)
    requires j.Valid() && target in t.nodes && (first != null ==> first in t.nodes)
    modifies t.nodes, j
    ensures j.Valid() && Leaves(t, j, ApplyFirst(old(Now(t, j)), target, first), error)
  {
    hide Tree.Snap, RelinkFirst, KidsOf, Touch;
    t.Fields(target);
    j.SnapshotChildren(target);
    error := t.RelinkFirstChild(target, first);
    if error == None {
      j.AddTouched(target);
    }
  }

  method ApplyNextSibling(t: Tree, j: Journal, target: Node, next: Node?) returns (error: Option<SetError>)
    requires j.Valid() && target in t.nodes && (next != null ==> next in t.nodes)
    requires target.parent != null ==> target.parent in t.nodes
    modifies t.nodes, j
    ensures j.Valid() && Leaves(t, j, ApplyNext(old(Now(t, j)), target, next), error)
  {
    hide Tree.Snap, RelinkNext, KidsOf, ParentOf, Touch;
    t.Fields(target);
    if target.parent != null {
      t.Fields(target.parent);
      j.SnapshotChildren(target.parent);
    }
    error := t.RelinkNextSibling(target, next);
    if error == None {
      j.AddTouched(target);
    }
  }

  method MoveTo(t: Tree, target: Node, newParent: Node)
    requires target in t.nodes && newParent in t.nodes
    requires target.parent != null ==> target.parent in t.nodes && target in target.parent.children
    modifies t.nodes
    ensures t.Snap() == Moved(old(t.Snap()), target, newParent)
  {
    hide Tree.Snap, Remove, WithParent, WithChildren, KidsOf, ParentOf;
    var oldParent := target.parent;
    t.Fields(target);
    if oldParent != null {
      t.RemoveChild(oldParent, target);
    }
    t.SetParent(target, newParent);
    t.Fields(newParent);
    t.SetChildren(newParent, newParent.children + [target]);
  }

  method ApplyNewParent(t: Tree, j: Journal, target: Node, newParent: Node) returns (error: Option<SetError>)
    requires j.Valid() && target in t.nodes && newParent in t.nodes
    requires target.parent != null ==> target.parent in t.nodes
    modifies t.nodes, j
    ensures j.Valid() && Leaves(t, j, ApplyMove(old(Now(t, j)), target, newParent), error)
  {
    hide Tree.Snap, Moved, IndexOf, KidsOf, ParentOf, Journal.Valid, Touch;
    var oldParent := target.parent;
    t.Fields(target);
    if oldParent != null {
      t.Fields(oldParent);
      j.SnapshotChildren(oldParent);
      var index := t.IndexOfChild(oldParent, target);
      if index < 0 {
        return Some(Gone);
      }
    }
    t.Fields(newParent);
    j.SnapshotChildren(newParent);
    j.RecordParent(target);
    MoveTo(t, target, newParent);
    j.AddTouched(target);
    return None;
  }

  // --- the records stay inside the tree -----------------------------------------------------

  /** Every node that the state and its records mention is one of the tree's. */
  ghost predicate Inside(a: Applying) {
    && (forall n :: n in a.s && a.s[n].parent != null ==> a.s[n].parent in a.s)
    && (forall i :: 0 <= i < |a.values| ==> a.values[i].0 in a.s)
    && (forall i :: 0 <= i < |a.parents| ==> a.parents[i].0 in a.s)
    && a.lists.Keys <= a.s.Keys
  }

  lemma StartInside(s: Snap, root: Node)
    requires Inv(s, root)
    ensures Inside(Start(s))
  {
  }

  lemma {:induction false} ValuesInside(a: Applying, ts: seq<Node>, v: NodeValue)
    requires Inside(a) && forall t :: t in ts ==> t in a.s
    ensures Inside(WriteValues(a, ts, v)) && WriteValues(a, ts, v).s.Keys == a.s.Keys
  {
    hide Touch;
    if ts != [] {
      ValuesInside(a, ts[..|ts| - 1], v);
    }
  }

  lemma FirstInside(a: Applying, t: Node, first: Node?)
    requires Inside(a) && t in a.s
    ensures Inside(ApplyFirst(a, t, first).a) && ApplyFirst(a, t, first).a.s.Keys == a.s.Keys
  {
    hide IndexOf, Touch;
  }

  lemma NextInside(a: Applying, t: Node, next: Node?)
    requires Inside(a) && t in a.s
    ensures Inside(ApplyNext(a, t, next).a) && ApplyNext(a, t, next).a.s.Keys == a.s.Keys
  {
    hide IndexOf, Touch;
  }

  lemma MoveInside(a: Applying, t: Node, np: Node)
    requires Inside(a) && t in a.s && np in a.s
    ensures Inside(ApplyMove(a, t, np).a) && ApplyMove(a, t, np).a.s.Keys == a.s.Keys
  {
    hide IndexOf, Touch, Moved;
    MovedParentsInside(a.s, t, np);
  }

  lemma MovedParentsInside(s: Snap, t: Node, np: Node)
    requires t in s && np in s && forall n :: n in s && s[n].parent != null ==> s[n].parent in s
    ensures Moved(s, t, np).Keys == s.Keys
    ensures forall n :: n in s && Moved(s, t, np)[n].parent != null ==> Moved(s, t, np)[n].parent in s
  {
    hide Moved;
    MovedParts(s, t, np);
    forall n | n in s && Moved(s, t, np)[n].parent != null
      ensures Moved(s, t, np)[n].parent in s
    {
      assert ParentOf(Moved(s, t, np), n) == if n == t then np else ParentOf(s, n);
    }
  }

  // --- one edit -----------------------------------------------------------------------------------

  method ApplyEdit(t: Tree, j: Journal, p: Plan) returns (error: Option<SetError>)
    requires j.Valid() && Inside(Now(t, j)) && PlanOk(t.nodes, p) && Known(t.nodes, p)
    modifies t.nodes, j
    ensures j.Valid() && Inside(Now(t, j))
    ensures Leaves(t, j, ApplyPlan(old(Now(t, j)), p), error)
  {
    hide Tree.Snap, WriteValues, ApplyFirst, ApplyNext, ApplyMove, Inside, ApplyPlan, Journal.Valid;
    ghost var a := Now(t, j);
    PlanStages(a, p);
    error := None;
    if p.newValue.Some? {
      ValuesInside(a, p.targets, p.newValue.value);
      WriteTargets(t, j, p.targets, p.newValue.value);
    }
    assert Now(t, j) == AfterValues(a, p);
    if p.first.Some? {
      FirstInside(Now(t, j), p.targets[0], p.first.value);
      error := ApplyFirstChild(t, j, p.targets[0], p.first.value);
    }
    assert Leaves(t, j, AfterFirst(a, p), error);
    if error == None && p.next.Some? {
      NextInside(Now(t, j), p.targets[0], p.next.value);
      ParentKnown(t, j, p.targets[0]);
      error := ApplyNextSibling(t, j, p.targets[0], p.next.value);
    }
    assert Leaves(t, j, AfterNext(a, p), error);
    if error == None && p.newParent.Some? {
      MoveInside(Now(t, j), p.targets[0], p.newParent.value);
      ParentKnown(t, j, p.targets[0]);
      error := ApplyNewParent(t, j, p.targets[0], p.newParent.value);
    }
  }

  lemma ParentKnown(t: Tree, j: Journal, n: Node)
    requires Inside(Now(t, j)) && n in t.nodes
    ensures n.parent != null ==> n.parent in t.nodes
  {
    assert t.Snap()[n].parent == n.parent;
  }

  /** The sibling and child that a plan names are the tree's own. */
  ghost predicate Known(keys: set<Node>, p: Plan) {
    && (p.first.Some? && p.first.value != null ==> p.first.value in keys)
    && (p.next.Some? && p.next.value != null ==> p.next.value in keys)
  }

  // --- taking it back ---------------------------------------------------------------------------------

  method RestoreValues(t: Tree, log: seq<(Node, NodeValue)>)
    requires forall i :: 0 <= i < |log| ==> log[i].0 in t.nodes
    modifies t.nodes
    ensures t.Snap() == SetValues(old(t.Snap()), log)
  {
    hide Tree.Snap, WithValue;
    ghost var s := t.Snap();
    var i := 0;
    while i < |log|
      invariant 0 <= i <= |log|
      invariant t.Snap() == SetValues(s, log[..i])
    {
      assert log[..i + 1][..i] == log[..i];
      t.SetValue(log[i].0, log[i].1);
      i := i + 1;
    }
    assert log[..|log|] == log;
  }

  method RestoreParents(t: Tree, log: seq<(Node, Node?)>)
    requires forall i :: 0 <= i < |log| ==> log[i].0 in t.nodes
    modifies t.nodes
    ensures t.Snap() == SetParents(old(t.Snap()), log)
  {
    hide Tree.Snap, WithParent;
    ghost var s := t.Snap();
    var i := 0;
    while i < |log|
      invariant 0 <= i <= |log|
      invariant t.Snap() == SetParents(s, log[..i])
    {
      assert log[..i + 1][..i] == log[..i];
      t.SetParent(log[i].0, log[i].1);
      i := i + 1;
    }
    assert log[..|log|] == log;
  }

  /** The recorded lists go back in whatever order the map gives them. */
  method RestoreChildren(t: Tree, lists: map<Node, seq<Node>>)
    requires lists.Keys <= t.nodes
    modifies t.nodes
    ensures t.Snap() == RestoreLists(old(t.Snap()), lists)
  {
    hide Tree.Snap, WithChildren;
    ghost var s := t.Snap();
    RestoreNothing(s);
    assert lists - lists.Keys == map[];
    var left := lists.Keys;
    while left != {}
      invariant left <= lists.Keys
      invariant t.Snap() == RestoreLists(s, lists - left)
    {
      var n :| n in left;
      RestoreOneMore(s, lists - left, n, lists[n]);
      assert lists - (left - {n}) == (lists - left)[n := lists[n]];
      t.SetChildren(n, lists[n]);
      left := left - {n};
    }
    assert lists - {} == lists;
  }

  lemma RestoreNothing(s: Snap)
    ensures RestoreLists(s, map[]) == s
  {
  }

  lemma RestoreOneMore(s: Snap, lists: map<Node, seq<Node>>, n: Node, kids: seq<Node>)
    requires n in s
    ensures RestoreLists(s, lists[n := kids]) == WithChildren(RestoreLists(s, lists), n, kids)
  {
  }

  method RollBack(t: Tree, j: Journal)
    requires Inside(Now(t, j))
    modifies t.nodes
    ensures t.Snap() == Rollback(old(Now(t, j)))
  {
    hide Tree.Snap, SetValues, SetParents, RestoreLists;
    RestoreValues(t, j.values);
    RestoreParents(t, j.parents);
    RestoreChildren(t, j.lists);
  }

  /** Every plan in turn; the first conflict takes everything back. */
  method ApplySetPlans(t: Tree, plans: seq<Plan>) returns (r: Result<seq<Node>, SetError>)
    requires Inv(t.Snap(), t.root) && PlansOk(t.nodes, plans) && forall i :: 0 <= i < |plans| ==> Known(t.nodes, plans[i])
    modifies t.nodes
    ensures match Apply(old(t.Snap()), plans)
            case Done(a) => r == Ok(a.touched) && t.Snap() == a.s
            case Conflict(e, a) => r == Err(e) && t.Snap() == Rollback(a)
  {
    hide Tree.Snap, ApplyPlan, Inside, Inv, Rollback, Known, PlanOk;
    ghost var s := t.Snap();
    StartInside(s, t.root);
    var j := new Journal();
    var i := 0;
    while i < |plans|
      invariant 0 <= i <= |plans| && j.Valid()
      invariant Inside(Now(t, j)) && Apply(s, plans[..i]) == Done(Now(t, j))
      invariant fresh(j)
    {
      assert plans[..i + 1][..i] == plans[..i];
      var error := ApplyEdit(t, j, plans[i]);
      i := i + 1;
      if error.Some? {
        ConflictStays(s, plans, i);
        RollBack(t, j);
        return Err(error.value);
      }
    }
    assert plans[..|plans|] == plans;
    return Ok(j.touched);
  }

  /** A request stops at its first conflict. */
  lemma {:induction false} ConflictStays(s: Snap, plans: seq<Plan>, i: nat)
    requires PlansOk(s.Keys, plans) && i <= |plans| && Apply(s, plans[..i]).Conflict?
    ensures Apply(s, plans) == Apply(s, plans[..i])
  {
    hide ApplyPlan, PlanOk;
    if i < |plans| {
      var n := |plans| - 1;
      assert plans[..n][..i] == plans[..i];
      ConflictStays(s, plans[..n], i);
    } else {
      assert plans[..i] == plans;
    }
  }
}
