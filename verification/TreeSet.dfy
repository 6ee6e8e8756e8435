/**
 * Applying a Set's planned edits, and taking them back on a conflict, after
 * goimpl/internal/tree/tree.go:875-965 and 1086-1140.
 */
module TreeSet {
  import opened Basics
  import opened WireTypes
  import opened Expression
  import opened TreeState
  import opened UndoLog

  datatype SetError =
    | BadTarget(error: ExprError)   // an expression that does not parse
    | MatchCount(count: nat)        // exactly one match was needed
    | OffsetNotAllowed
    | Denied                        // wraps ErrPermissionDenied
    | NotStaged
    | WouldCycle
    | NotAChild | NoParent | Gone   // conflicts met while applying

  /** One edit resolved against the tree before the request; a null first or next means "clear". */
  datatype Plan = Plan(
    targets: seq<Node>,
    newValue: Option<NodeValue>,
    first: Option<Node?>,
    next: Option<Node?>,
    newParent: Option<Node>)
  {
    predicate Structural() {
      first.Some? || next.Some? || newParent.Some?
    }
  }

  /** What planning guarantees of a plan: one target for structural edits, and only known nodes. */
  ghost predicate PlanOk(keys: set<Node>, p: Plan) {
    && (p.Structural() ==> |p.targets| == 1)
    && (forall t :: t in p.targets ==> t in keys)
    && (p.newParent.Some? ==> p.newParent.value in keys)
  }

  ghost predicate PlansOk(keys: set<Node>, plans: seq<Plan>) {
    forall i :: 0 <= i < |plans| ==> PlanOk(keys, plans[i])
  }

  // --- relinking --------------------------------------------------------------------

  function IndexOf(xs: seq<Node>, x: Node?): (r: int)
    ensures -1 <= r < |xs|
    ensures r >= 0 ==> xs[r] == x
    ensures r < 0 ==> x !in xs
  {
    if xs == [] then -1
    else if xs[0] == x then 0
    else
      var r := IndexOf(xs[1..], x);
      if r < 0 then -1 else r + 1
  }

  function RelinkFirst(s: Snap, parent: Node, first: Node?): Result<Snap, SetError> {
    var kids := KidsOf(s, parent);
    if first == null then Ok(WithChildren(s, parent, []))
    else if ParentOf(s, first) != parent then Err(NotAChild)
    else
      var idx := IndexOf(kids, first);
      if idx < 0 then Err(Gone) else Ok(WithChildren(s, parent, kids[idx..]))
  }

  function RelinkNext(s: Snap, node: Node, next: Node?): Result<Snap, SetError> {
    var parent := ParentOf(s, node);
    if parent == null then Err(NoParent)
    else
      var kids := KidsOf(s, parent);
      var idx := IndexOf(kids, node);
      if idx < 0 then Err(Gone)
      else if next == null then Ok(WithChildren(s, parent, kids[..idx + 1]))
      else if ParentOf(s, next) != parent then Err(NotAChild)
      else
        var newIdx := IndexOf(kids, next);
        if newIdx < 0 then Err(Gone)
        else Ok(WithChildren(s, parent, kids[..idx + 1] + kids[newIdx..]))
  }

  // --- applying -----------------------------------------------------------------------

  /** The tree part way through a request, with the undo records and the nodes reported back. */
  datatype Applying = Applying(
    s: Snap,
    values: seq<(Node, NodeValue)>,
    parents: seq<(Node, Node?)>,
    lists: map<Node, seq<Node>>,
    touched: seq<Node>)

  datatype Outcome = Done(a: Applying) | Conflict(error: SetError, a: Applying)

  function Start(s: Snap): Applying {
    Applying(s, [], [], map[], [])
  }

  function Touch(xs: seq<Node>, n: Node): seq<Node> {
    if n in xs then xs else xs + [n]
  }

  /** snapshotChildren: the list as it was the first time the request is about to change it. */
  function Keep(a: Applying, n: Node): Applying {
    if n in a.lists then a else a.(lists := a.lists[n := KidsOf(a.s, n)])
  }

  function WriteValues(a: Applying, ts: seq<Node>, v: NodeValue): Applying {
    if ts == [] then a
    else
      var b, t := WriteValues(a, ts[..|ts| - 1], v), ts[|ts| - 1];
      b.(s := WithValue(b.s, t, v), values := b.values + [(t, ValueOf(b.s, t))], touched := Touch(b.touched, t))
  }

  function ApplyFirst(a: Applying, t: Node, first: Node?): Outcome {
    var b := Keep(a, t);
    var r := RelinkFirst(b.s, t, first);
    if r.Err? then Conflict(r.error, b) else Done(b.(s := r.value, touched := Touch(b.touched, t)))
  }

  function ApplyNext(a: Applying, t: Node, next: Node?): Outcome {
    var parent := ParentOf(a.s, t);
    var b := if parent == null then a else Keep(a, parent);
    var r := RelinkNext(b.s, t, next);
    if r.Err? then Conflict(r.error, b) else Done(b.(s := r.value, touched := Touch(b.touched, t)))
  }

  function ApplyMove(a: Applying, t: Node, np: Node): Outcome {
    var op := ParentOf(a.s, t);
    var b := if op == null then a else Keep(a, op);
    if op != null && IndexOf(KidsOf(b.s, op), t) < 0 then Conflict(Gone, b)
    else
      var c := Keep(b, np);
      Done(c.(s := Moved(c.s, t, np), parents := c.parents + [(t, op)], touched := Touch(c.touched, t)))
  }

  function ApplyPlan(a: Applying, p: Plan): Outcome
    requires p.Structural() ==> |p.targets| == 1
  {
    var a1 := if p.newValue.Some? then WriteValues(a, p.targets, p.newValue.value) else a;
    var o2 := if p.first.Some? then ApplyFirst(a1, p.targets[0], p.first.value) else Done(a1);
    if o2.Conflict? then o2
    else
      var o3 := if p.next.Some? then ApplyNext(o2.a, p.targets[0], p.next.value) else o2;
      if o3.Conflict? then o3
      else if p.newParent.Some? then ApplyMove(o3.a, p.targets[0], p.newParent.value)
      else o3
  }

  ghost function Apply(s: Snap, plans: seq<Plan>): Outcome
    requires PlansOk(s.Keys, plans)
  {
    if plans == [] then Done(Start(s))
    else
      var n := |plans| - 1;
      var o := Apply(s, plans[..n]);
      if o.Conflict? then o else ApplyPlan(o.a, plans[n])
  }

  function RestoreLists(s: Snap, lists: map<Node, seq<Node>>): Snap {
    map n | n in s :: if n in lists then s[n].(children := lists[n]) else s[n]
  }

  function SetValues(s: Snap, log: seq<(Node, NodeValue)>): Snap {
    if log == [] then s else WithValue(SetValues(s, log[..|log| - 1]), log[|log| - 1].0, log[|log| - 1].1)
  }

  function SetParents(s: Snap, log: seq<(Node, Node?)>): Snap {
    if log == [] then s else WithParent(SetParents(s, log[..|log| - 1]), log[|log| - 1].0, log[|log| - 1].1)
  }

  /** The rollback: values, then parents, then child lists, each in the order recorded. */
  function Rollback(a: Applying): Snap {
    RestoreLists(SetParents(SetValues(a.s, a.values), a.parents), a.lists)
  }

  // --- what has been written --------------------------------------------------------

  function ValueWrites(p: Plan): seq<(Node, NodeValue)> {
    if p.newValue.None? then [] else WritesOf(p.targets, p.newValue.value)
  }

  function WritesOf(ts: seq<Node>, v: NodeValue): seq<(Node, NodeValue)> {
    seq(|ts|, i requires 0 <= i < |ts| => (ts[i], v))
  }

  /** The value writes of a request's edits, in order. */
  function AllWrites(plans: seq<Plan>): seq<(Node, NodeValue)> {
    if plans == [] then [] else AllWrites(plans[..|plans| - 1]) + ValueWrites(plans[|plans| - 1])
  }

  function MoveWrites(p: Plan): seq<(Node, Node?)>
    requires p.Structural() ==> |p.targets| == 1
  {
    if p.newParent.None? then [] else [(p.targets[0], p.newParent.value)]
  }

  /** The moves of a request's edits, in order: each node with its new parent. */
  ghost function AllMoves(keys: set<Node>, plans: seq<Plan>): seq<(Node, Node?)>
    requires PlansOk(keys, plans)
  {
    if plans == [] then [] else AllMoves(keys, plans[..|plans| - 1]) + MoveWrites(plans[|plans| - 1])
  }

  function Values(s: Snap): map<Node, NodeValue> {
    map n | n in s :: s[n].value
  }

  function Parents(s: Snap): map<Node, Node?> {
    map n | n in s :: s[n].parent
  }

  /** The state a after value writes w and moves m, begun in s0: what it holds and what its records say. */
  ghost predicate Tracks(s0: Snap, a: Applying, w: seq<(Node, NodeValue)>, m: seq<(Node, Node?)>) {
    && SameNodes(s0, a.s)
    && ValuesLogged(s0, a.s, a.values, w)
    && ParentsLogged(s0, a.s, a.parents, m)
    && ListsKept(s0, a.s, a.lists)
  }

  ghost predicate SameNodes(s0: Snap, s: Snap) {
    s.Keys == s0.Keys && forall n :: n in s0 ==> s[n].id == s0[n].id
  }

  ghost predicate ValuesLogged(s0: Snap, s: Snap, log: seq<(Node, NodeValue)>, w: seq<(Node, NodeValue)>) {
    && (forall i :: 0 <= i < |w| ==> w[i].0 in s0)
    && log == Olds(Values(s0), w)
    && forall n :: n in s0 ==> ValueOf(s, n) == After(s0[n].value, w, n)
  }

  ghost predicate ParentsLogged(s0: Snap, s: Snap, log: seq<(Node, Node?)>, m: seq<(Node, Node?)>) {
    && (forall i :: 0 <= i < |m| ==> m[i].0 in s0)
    && log == Olds(Parents(s0), m)
    && forall n :: n in s0 ==> ParentOf(s, n) == After(s0[n].parent, m, n)
  }

  /** Every changed list has its record, and every record is the list as it was. */
  ghost predicate ListsKept(s0: Snap, s: Snap, lists: map<Node, seq<Node>>) {
    forall n :: n in s0 ==> if n in lists then lists[n] == s0[n].children else KidsOf(s, n) == s0[n].children
  }

  lemma OldsSnoc<V>(base: map<Node, V>, w: seq<(Node, V)>, t: Node, v: V)
    requires t in base && forall i :: 0 <= i < |w| ==> w[i].0 in base
    ensures Olds(base, w + [(t, v)]) == Olds(base, w) + [(t, After(base[t], w, t))]
    ensures forall x :: x in base ==> After(base[x], w + [(t, v)], x) == if x == t then v else After(base[x], w, x)
  {
    assert (w + [(t, v)])[..|w|] == w;
    forall x | x in base
      ensures After(base[x], w + [(t, v)], x) == if x == t then v else After(base[x], w, x)
    {
      OnSnoc(w, t, v, x);
    }
  }

  lemma StartTracks(s: Snap)
    ensures Tracks(s, Start(s), [], [])
  {
    assert forall n :: n in s ==> On<Node, NodeValue>([], n) == [] && On<Node, Node?>([], n) == [];
  }

  lemma KeepTracks(s0: Snap, a: Applying, w: seq<(Node, NodeValue)>, m: seq<(Node, Node?)>, n: Node)
    requires Tracks(s0, a, w, m)
    ensures Tracks(s0, Keep(a, n), w, m) && n in Keep(a, n).lists && Keep(a, n).s == a.s
  {
    hide Olds, After, ValuesLogged, ParentsLogged, SameNodes;
  }

  lemma ValueWritten(s0: Snap, s: Snap, log: seq<(Node, NodeValue)>, w: seq<(Node, NodeValue)>, t: Node, v: NodeValue)
    requires ValuesLogged(s0, s, log, w) && s.Keys == s0.Keys && t in s0
    ensures ValuesLogged(s0, WithValue(s, t, v), log + [(t, ValueOf(s, t))], w + [(t, v)])
  {
    hide Olds, After;
    assert Values(s0)[t] == s0[t].value;
    OldsSnoc(Values(s0), w, t, v);
    assert forall n :: n in s0 ==> Values(s0)[n] == s0[n].value;
    hide Values;
  }

  lemma ParentWritten(s0: Snap, s: Snap, s': Snap, log: seq<(Node, Node?)>, m: seq<(Node, Node?)>, t: Node, p: Node?)
    requires ParentsLogged(s0, s, log, m) && t in s0
    requires forall n :: n in s0 ==> ParentOf(s', n) == if n == t then p else ParentOf(s, n)
    ensures ParentsLogged(s0, s', log + [(t, ParentOf(s, t))], m + [(t, p)])
  {
    hide Olds, After;
    assert Parents(s0)[t] == s0[t].parent;
    OldsSnoc(Parents(s0), m, t, p);
    assert forall n :: n in s0 ==> Parents(s0)[n] == s0[n].parent;
    hide Parents;
  }

  lemma ValuesSame(s0: Snap, s: Snap, s': Snap, log: seq<(Node, NodeValue)>, w: seq<(Node, NodeValue)>)
    requires ValuesLogged(s0, s, log, w) && forall n :: n in s0 ==> ValueOf(s', n) == ValueOf(s, n)
    ensures ValuesLogged(s0, s', log, w)
  {
    hide Olds, After;
  }

  lemma ParentsSame(s0: Snap, s: Snap, s': Snap, log: seq<(Node, Node?)>, m: seq<(Node, Node?)>)
    requires ParentsLogged(s0, s, log, m) && forall n :: n in s0 ==> ParentOf(s', n) == ParentOf(s, n)
    ensures ParentsLogged(s0, s', log, m)
  {
    hide Olds, After;
  }

  lemma WriteTracks(s0: Snap, a: Applying, w: seq<(Node, NodeValue)>, m: seq<(Node, Node?)>, t: Node, v: NodeValue,
                    touched: seq<Node>)
    requires Tracks(s0, a, w, m) && t in s0
    ensures Tracks(s0, a.(s := WithValue(a.s, t, v), values := a.values + [(t, ValueOf(a.s, t))], touched := touched), w + [(t, v)], m)
  {
    hide ValuesLogged, ParentsLogged, Olds, After, On, Values, Parents;
    var s' := WithValue(a.s, t, v);
    ValueWritten(s0, a.s, a.values, w, t, v);
    ParentsSame(s0, a.s, s', a.parents, m);
  }

  lemma {:induction false} WritesTrack(s0: Snap, a: Applying, w: seq<(Node, NodeValue)>, m: seq<(Node, Node?)>,
                                       ts: seq<Node>, v: NodeValue)
    requires Tracks(s0, a, w, m) && forall t :: t in ts ==> t in s0
    ensures Tracks(s0, WriteValues(a, ts, v), w + WritesOf(ts, v), m)
    decreases |ts|
  {
    hide Tracks;
    var log := WritesOf(ts, v);
    if ts == [] {
      assert w + log == w;
    } else {
      var k := |ts| - 1;
      var init, t := ts[..k], ts[k];
      var before := WritesOf(init, v);
      WritesTrack(s0, a, w, m, init, v);
      var b := WriteValues(a, init, v);
      WriteTracks(s0, b, w + before, m, t, v, Touch(b.touched, t));
      assert w + before + [(t, v)] == w + log;
    }
  }

  /** Only a list that has its record may change. */
  lemma RelinkTracks(s0: Snap, a: Applying, w: seq<(Node, NodeValue)>, m: seq<(Node, Node?)>, n: Node,
                     kids: seq<Node>, touched: seq<Node>)
    requires Tracks(s0, a, w, m) && n in a.lists
    ensures Tracks(s0, a.(s := WithChildren(a.s, n, kids), touched := touched), w, m)
  {
    hide ValuesLogged, ParentsLogged, Olds, After, On, Values, Parents;
    var s' := WithChildren(a.s, n, kids);
    ValuesSame(s0, a.s, s', a.values, w);
    ParentsSame(s0, a.s, s', a.parents, m);
  }

  lemma MoveTracks(s0: Snap, a: Applying, w: seq<(Node, NodeValue)>, m: seq<(Node, Node?)>, t: Node, np: Node,
                   touched: seq<Node>)
    requires Tracks(s0, a, w, m) && t in s0 && np in a.lists
    requires ParentOf(a.s, t) != null ==> ParentOf(a.s, t) in a.lists
    ensures Tracks(s0, a.(s := Moved(a.s, t, np), parents := a.parents + [(t, ParentOf(a.s, t))], touched := touched),
                   w, m + [(t, np)])
  {
    hide ValuesLogged, ParentsLogged, Olds, After, On, Values, Parents, Moved;
    var s' := Moved(a.s, t, np);
    MovedParts(a.s, t, np);
    ValuesSame(s0, a.s, s', a.values, w);
    ParentWritten(s0, a.s, s', a.parents, m, t, np);
  }

  lemma MovedParts(s: Snap, t: Node, np: Node)
    requires t in s
    ensures var s' := Moved(s, t, np);
            && s'.Keys == s.Keys
            && (forall n :: n in s ==> s'[n].id == s[n].id && ValueOf(s', n) == ValueOf(s, n))
            && (forall n :: n in s ==> ParentOf(s', n) == if n == t then np else ParentOf(s, n))
            && (forall n :: n in s && n != np && n != ParentOf(s, t) ==> KidsOf(s', n) == KidsOf(s, n))
  {
    hide Remove;
  }

  /** One plan: a conflict comes after its value writes and before its move. */
  lemma PlanTracks(s0: Snap, a: Applying, w: seq<(Node, NodeValue)>, m: seq<(Node, Node?)>, p: Plan)
    requires Tracks(s0, a, w, m) && PlanOk(s0.Keys, p)
    ensures var o := ApplyPlan(a, p);
            Tracks(s0, o.a, w + ValueWrites(p), if o.Done? then m + MoveWrites(p) else m)
  {
    hide Tracks, RelinkFirst, RelinkNext, Moved;
    hide ApplyFirst, ApplyNext, ApplyMove, WriteValues;
    var w' := w + ValueWrites(p);
    var a1 := if p.newValue.Some? then WriteValues(a, p.targets, p.newValue.value) else a;
    assert Tracks(s0, a1, w', m) by {
      if p.newValue.Some? {
        WritesTrack(s0, a, w, m, p.targets, p.newValue.value);
      } else {
        assert w' == w;
      }
    }
    var o2 := if p.first.Some? then ApplyFirst(a1, p.targets[0], p.first.value) else Done(a1);
    assert Tracks(s0, o2.a, w', m) by {
      if p.first.Some? {
        FirstTracks(s0, a1, w', m, p.targets[0], p.first.value);
      }
    }
    if o2.Done? {
      var o3 := if p.next.Some? then ApplyNext(o2.a, p.targets[0], p.next.value) else o2;
      assert Tracks(s0, o3.a, w', m) by {
        if p.next.Some? {
          NextTracks(s0, o2.a, w', m, p.targets[0], p.next.value);
        }
      }
      if o3.Done? {
        if p.newParent.Some? {
          MoveStepTracks(s0, o3.a, w', m, p.targets[0], p.newParent.value);
        } else {
          assert m + MoveWrites(p) == m;
        }
      }
    }
  }

  lemma FirstTracks(s0: Snap, a: Applying, w: seq<(Node, NodeValue)>, m: seq<(Node, Node?)>, t: Node, first: Node?)
    requires Tracks(s0, a, w, m)
    ensures Tracks(s0, ApplyFirst(a, t, first).a, w, m)
  {
    hide Tracks;
    KeepTracks(s0, a, w, m, t);
    var b := Keep(a, t);
    var kids := if first == null then [] else var i := IndexOf(KidsOf(b.s, t), first); if i < 0 then [] else KidsOf(b.s, t)[i..];
    RelinkTracks(s0, b, w, m, t, kids, Touch(b.touched, t));
  }

  lemma NextTracks(s0: Snap, a: Applying, w: seq<(Node, NodeValue)>, m: seq<(Node, Node?)>, t: Node, next: Node?)
    requires Tracks(s0, a, w, m)
    ensures Tracks(s0, ApplyNext(a, t, next).a, w, m)
  {
    hide Tracks;
    var parent := ParentOf(a.s, t);
    if parent != null {
      KeepTracks(s0, a, w, m, parent);
      var b := Keep(a, parent);
      var o := ApplyNext(a, t, next);
      if o.Done? {
        RelinkTracks(s0, b, w, m, parent, RelinkedNext(KidsOf(b.s, parent), t, next), Touch(b.touched, t));
      }
    }
  }

  /** The list that relinkNextSibling leaves, where it succeeds. */
  function RelinkedNext(kids: seq<Node>, t: Node, next: Node?): seq<Node> {
    var idx := IndexOf(kids, t);
    if idx < 0 then kids
    else if next == null then kids[..idx + 1]
    else
      var newIdx := IndexOf(kids, next);
      if newIdx < 0 then kids else kids[..idx + 1] + kids[newIdx..]
  }

  lemma MoveStepTracks(s0: Snap, a: Applying, w: seq<(Node, NodeValue)>, m: seq<(Node, Node?)>, t: Node, np: Node)
    requires Tracks(s0, a, w, m) && t in s0
    ensures var o := ApplyMove(a, t, np); Tracks(s0, o.a, w, if o.Done? then m + [(t, np)] else m)
  {
    hide Tracks, Moved;
    var op := ParentOf(a.s, t);
    var b := if op == null then a else Keep(a, op);
    if op != null {
      KeepTracks(s0, a, w, m, op);
    }
    if ApplyMove(a, t, np).Done? {
      KeepTracks(s0, b, w, m, np);
      var c := Keep(b, np);
      MoveTracks(s0, c, w, m, t, np, Touch(c.touched, t));
    }
  }

  // --- taking it back -----------------------------------------------------------------

  lemma {:induction false} SetValuesIsReplay(s: Snap, log: seq<(Node, NodeValue)>)
    requires forall i :: 0 <= i < |log| ==> log[i].0 in s
    ensures var r := SetValues(s, log);
            && r.Keys == s.Keys && Values(r) == Replay(Values(s), log)
            && forall n :: n in s ==> r[n].parent == s[n].parent && r[n].children == s[n].children && r[n].id == s[n].id
  {
    if log != [] {
      SetValuesIsReplay(s, log[..|log| - 1]);
    }
  }

  lemma {:induction false} SetParentsIsReplay(s: Snap, log: seq<(Node, Node?)>)
    requires forall i :: 0 <= i < |log| ==> log[i].0 in s
    ensures var r := SetParents(s, log);
            && r.Keys == s.Keys && Parents(r) == Replay(Parents(s), log)
            && forall n :: n in s ==> r[n].value == s[n].value && r[n].children == s[n].children && r[n].id == s[n].id
  {
    if log != [] {
      SetParentsIsReplay(s, log[..|log| - 1]);
    }
  }

  /** Two snapshots are equal when their four parts are. */
  lemma SnapsEqual(s: Snap, s': Snap)
    requires s.Keys == s'.Keys && Values(s) == Values(s') && Parents(s) == Parents(s')
    requires forall n :: n in s ==> s[n].children == s'[n].children && s[n].id == s'[n].id
    ensures s == s'
  {
    forall n | n in s
      ensures s[n] == s'[n]
    {
      assert Values(s)[n] == Values(s')[n] && Parents(s)[n] == Parents(s')[n];
    }
  }

  /** Each node's writes and each node's moves undo themselves. */
  ghost predicate SelfUndoing(s0: Snap, w: seq<(Node, NodeValue)>, m: seq<(Node, Node?)>) {
    && (forall n :: n in s0 ==> Undoes(s0[n].value, On(w, n)))
    && (forall n :: n in s0 ==> Undoes(s0[n].parent, On(m, n)))
  }

  /** What rollback leaves: lists as they were; values and parents as their replayed records say. */
  lemma RollbackParts(s0: Snap, a: Applying, w: seq<(Node, NodeValue)>, m: seq<(Node, Node?)>)
    requires Tracks(s0, a, w, m)
    ensures var r := Rollback(a);
            && r.Keys == s0.Keys
            && Values(r) == Replay(Values(a.s), Olds(Values(s0), w))
            && Parents(r) == Replay(Parents(a.s), Olds(Parents(s0), m))
            && (forall n :: n in s0 ==> r[n].children == s0[n].children && r[n].id == s0[n].id)
  {
    hide Olds, Replay, ValuesLogged, ParentsLogged, SetValues, SetParents, RestoreLists;
    FieldsReplayed(s0, a, w, m);
    ListsRestored(s0, a, SetParents(SetValues(a.s, a.values), a.parents));
  }

  lemma FieldsReplayed(s0: Snap, a: Applying, w: seq<(Node, NodeValue)>, m: seq<(Node, Node?)>)
    requires SameNodes(s0, a.s) && ValuesLogged(s0, a.s, a.values, w) && ParentsLogged(s0, a.s, a.parents, m)
    ensures var s2 := SetParents(SetValues(a.s, a.values), a.parents);
            && s2.Keys == s0.Keys
            && Values(s2) == Replay(Values(a.s), Olds(Values(s0), w))
            && Parents(s2) == Replay(Parents(a.s), Olds(Parents(s0), m))
            && (forall n :: n in s0 ==> s2[n].children == a.s[n].children && s2[n].id == a.s[n].id)
  {
    hide Olds, After, On, SetValues, SetParents, Replay;
    OldsTargets(Values(s0), w);
    OldsTargets(Parents(s0), m);
    SetValuesIsReplay(a.s, a.values);
    var s1 := SetValues(a.s, a.values);
    SetParentsIsReplay(s1, a.parents);
    var s2 := SetParents(s1, a.parents);
    assert Parents(s1) == Parents(a.s) && Values(s2) == Values(s1);
  }

  lemma ListsRestored(s0: Snap, a: Applying, s2: Snap)
    requires SameNodes(s0, a.s) && ListsKept(s0, a.s, a.lists)
    requires s2.Keys == a.s.Keys && forall n :: n in s2 ==> s2[n].children == a.s[n].children && s2[n].id == a.s[n].id
    ensures var r := RestoreLists(s2, a.lists);
            && r.Keys == s0.Keys && Values(r) == Values(s2) && Parents(r) == Parents(s2)
            && forall n :: n in s0 ==> r[n].children == s0[n].children && r[n].id == s0[n].id
  {
  }

  /** Rollback restores the tree exactly when each node's writes, and each node's moves, undo themselves. */
  lemma RollbackRestores(s0: Snap, a: Applying, w: seq<(Node, NodeValue)>, m: seq<(Node, Node?)>)
    requires Tracks(s0, a, w, m)
    ensures Rollback(a) == s0 <==> SelfUndoing(s0, w, m)
  {
    RollbackParts(s0, a, w, m);
    RestoreBoth(s0, a, w, m);
    hide Rollback, Replay, Olds, Tracks, Undoes, On;
    var r := Rollback(a);
    if Values(r) == Values(s0) && Parents(r) == Parents(s0) {
      SnapsEqual(r, s0);
    }
  }

  lemma RestoreBoth(s0: Snap, a: Applying, w: seq<(Node, NodeValue)>, m: seq<(Node, Node?)>)
    requires Tracks(s0, a, w, m)
    ensures Replay(Values(a.s), Olds(Values(s0), w)) == Values(s0) && Replay(Parents(a.s), Olds(Parents(s0), m)) == Parents(s0)
            <==> SelfUndoing(s0, w, m)
  {
    hide Olds, Replay, On, Undoes, After;
    ReplayRestores(Values(a.s), Values(s0), w);
    ReplayRestores(Parents(a.s), Parents(s0), m);
  }

  /** The edit whose conflict stops the request. */
  ghost function FailsAt(s: Snap, plans: seq<Plan>): (k: nat)
    requires PlansOk(s.Keys, plans) && Apply(s, plans).Conflict?
    ensures k < |plans|
  {
    var n := |plans| - 1;
    if Apply(s, plans[..n]).Conflict? then FailsAt(s, plans[..n]) else n
  }

  lemma {:induction false} ApplyTracks(s0: Snap, plans: seq<Plan>)
    requires PlansOk(s0.Keys, plans)
    ensures var o := Apply(s0, plans);
            if o.Done? then Tracks(s0, o.a, AllWrites(plans), AllMoves(s0.Keys, plans))
            else var k := FailsAt(s0, plans); Tracks(s0, o.a, AllWrites(plans[..k + 1]), AllMoves(s0.Keys, plans[..k]))
    decreases |plans|
  {
    hide Tracks, ApplyPlan, ValueWrites, MoveWrites;
    if plans == [] {
      StartTracks(s0);
    } else {
      var n := |plans| - 1;
      ApplyTracks(s0, plans[..n]);
      var o := Apply(s0, plans[..n]);
      if o.Done? {
        PlanTracks(s0, o.a, AllWrites(plans[..n]), AllMoves(s0.Keys, plans[..n]), plans[n]);
        assert plans[..n + 1] == plans;
      } else {
        var k := FailsAt(s0, plans[..n]);
        assert plans[..n][..k + 1] == plans[..k + 1] && plans[..n][..k] == plans[..k];
      }
    }
  }

  /**
   * All or nothing, the error half: a request that conflicts at edit k leaves every
   * node's value, parent and children as they were exactly when each node written by
   * edits 0..k, and each node moved by edits 0..k-1, is written, or moved, at most
   * once, or twice and more with the next-to-last time putting its first state back.
   */
  lemma ConflictLeavesTreeUnchanged(s0: Snap, plans: seq<Plan>)
    requires PlansOk(s0.Keys, plans) && Apply(s0, plans).Conflict?
    ensures var k := FailsAt(s0, plans);
            Rollback(Apply(s0, plans).a) == s0 <==>
              SelfUndoing(s0, AllWrites(plans[..k + 1]), AllMoves(s0.Keys, plans[..k]))
  {
    ApplyTracks(s0, plans);
    var k := FailsAt(s0, plans);
    RollbackRestores(s0, Apply(s0, plans).a, AllWrites(plans[..k + 1]), AllMoves(s0.Keys, plans[..k]));
  }

  /** The success half: each node holds the value of the last edit that matched it, if any. */
  lemma SuccessWritesLast(s0: Snap, plans: seq<Plan>, n: Node)
    requires PlansOk(s0.Keys, plans) && Apply(s0, plans).Done? && n in s0
    ensures n in Apply(s0, plans).a.s
    ensures Apply(s0, plans).a.s[n].value == After(s0[n].value, AllWrites(plans), n)
    ensures Apply(s0, plans).a.s[n].parent == After(s0[n].parent, AllMoves(s0.Keys, plans), n)
  {
    ApplyTracks(s0, plans);
  }
}
