/**
 * What each kind of request does to the tree, to the results nodes of active queries, and
 * to what is sent, after goimpl/internal/server/server.go:403-764: every reply in full,
 * and the tree to the last node. Error texts and transport numbers are parameters.
 */
module SessionEffects {
  import opened Basics
  import opened WireTypes
  import opened Expression
  import opened Authz
  import opened Flatten
  import opened Fit
  import opened TreeState
  import opened TreeRead
  import opened TreeSet
  import opened TreeTouched
  import opened TreePlan
  import opened TreeDelete
  import opened TreeGrow
  import opened TreeGetMethods
  import opened ResultEntries
  import Codec

  function Text(s: string): Bytes {
    seq(|s|, i requires 0 <= i < |s| => (s[i] as int) % 256)
  }

  /** What the server's answers depend on besides its own state. */
  datatype World = World(
    env: Engine,
    setText: SetError -> Bytes,
    getText: GetError -> Bytes,
    queryText: Query -> Bytes)

  /** What a session is made with and keeps: its containers, its caller's rights, the datagram size, 0 being "not known". */
  datatype Setup = Setup(id: Bytes, root: Node, newNodes: Node, errors: Node, queryResults: Node,
                         auth: Option<Checker>, budget: nat)

  /** ValidateQuery: the mode, interval and aggregation fields go together. */
  predicate ValidQuery(q: Query) {
    && q.transferInterval >= 0
    && (match q.collectionMode
        case CollectOnce => true
        case CollectInterval(interval) => interval > 0 && q.transferInterval > 0
        case CollectOnChange => q.transferInterval > 0)
    && (q.aggregationInterval.Some? <==> q.aggregationMethod.Some?)
    && (q.aggregationInterval.Some? ==> q.aggregationInterval.value > 0)
  }

  /** What a query is refused for, kind by kind. */
  lemma QueryRefused(q: Query)
    ensures !ValidQuery(q) <==>
              || q.transferInterval < 0
              || (q.collectionMode.CollectInterval? && (q.collectionMode.interval <= 0 || q.transferInterval == 0))
              || (q.collectionMode.CollectOnChange? && q.transferInterval == 0)
              || (q.aggregationInterval.Some? && (q.aggregationMethod.None? || q.aggregationInterval.value <= 0))
              || (q.aggregationInterval.None? && q.aggregationMethod.Some?)
  {
  }

  // --- replies -------------------------------------------------------------------------------

  /** The nodes that go out of flat from resume on; None where nothing fits and nothing is sent. */
  function ToSend(flat: seq<WireNode>, resume: nat, base: Bytes, budget: nat, tx: int64, requestSeq: int64):
    (r: Option<seq<WireNode>>)
    requires resume <= |flat|
    ensures r.Some? && resume < |flat| ==> r.value != []
    ensures budget == 0 ==> r == Some(flat[resume..])
  {
    if budget == 0 then Some(flat[resume..]) else Delivered(flat, resume, base, budget, Codec.ResponseSize(tx, requestSeq))
  }

  /** One reply with these nodes, or none. */
  function Carrying(tx: int64, requestSeq: int64, nodes: Option<seq<WireNode>>): (sent: seq<Response>)
    ensures |sent| <= 1
  {
    if nodes.None? then [] else [Response(tx, requestSeq, false, None, nodes.value)]
  }

  /** The pointer in an error's reply, made of its code alone. */
  function ErrorPath(id: Bytes, code: Bytes): Bytes {
    Text("/Sessions/Connection-ID\\=") + id + Text("/Errors/") + code
  }

  function ErrorReply(id: Bytes, tx: int64, requestSeq: int64, code: Bytes): Response {
    Response(tx, requestSeq, true, Some(AbsolutePointer(ErrorPath(id, code))), [])
  }

  /** Tree.Snapshot: each node's key and value, on their own. */
  function CopiesOf(s: Snap, ns: seq<Node>): seq<WireNode> {
    seq(|ns|, i requires 0 <= i < |ns| => WireNode(ns[i].key, ValueOf(s, ns[i]), OffsetPointer(0), OffsetPointer(0)))
  }

  /** A copy has the node's key and value and points nowhere. */
  lemma CopiesAre(s: Snap, ns: seq<Node>, i: nat)
    requires i < |ns| && ns[i] in s
    ensures |CopiesOf(s, ns)| == |ns|
    ensures CopiesOf(s, ns)[i] == WireNode(ns[i].key, s[ns[i]].value, OffsetPointer(0), OffsetPointer(0))
  {
  }

  // --- errors ----------------------------------------------------------------------------------

  /** e is a new error node of this code, with its message m and the request r it belongs to as its children. */
  ghost predicate RecordedAs(st: State, t: State, errors: Node, code: Bytes, message: Bytes, requestSeq: uint64,
                             e: Node, m: Node, r: Node)
  {
    && errors in st.s && e !in st.s && m !in st.s && r !in st.s && e != m && e != r && m != r
    && e.key == code && m.key == Text("message") && r.key == Text("requestSequenceNumber")
    && var one := AppendUnder(st, errors, e, NoValue);
       e in one.s
       && var two := AppendUnder(one, e, m, OctetStringValue(message));
          e in two.s && t == AppendUnder(two, e, r, Counter64Value(requestSeq))
  }

  /** Exactly one error node is added, with its two children, and nothing else is changed. */
  ghost predicate Recorded(st: State, t: State, errors: Node, code: Bytes, message: Bytes, requestSeq: uint64) {
    exists e, m, r :: e in t.s && m in t.s && r in t.s && RecordedAs(st, t, errors, code, message, requestSeq, e, m, r)
  }

  /** A request that fails: an error node, and a reply that points to its code. */
  ghost predicate Failed(f: Setup, tx: int64, requestSeq: int64, code: Bytes, message: Bytes,
                         st: State, t: State, sent: seq<Response>)
  {
    && requestSeq >= 0 && Recorded(st, t, f.errors, code, message, requestSeq)
    && sent == [ErrorReply(f.id, tx, requestSeq, code)]
  }

  // --- requests --------------------------------------------------------------------------------

  /** A Get reads, and answers with what it found from its resume index on, as much as fits. */
  ghost predicate GetEffect(w: World, f: Setup, g: Get, tx: int64, st: State, t: State, sent: seq<Response>) {
    Inv(st.s, f.root) &&
    if !g.target.AbsolutePointer? then
      Failed(f, tx, g.sequenceNumber, Text("InvalidExpression"), Text("Get.target must be an absolute expression"), st, t, sent)
    else
      match GetFull(w.env, st.s, f.root, f.auth, g.target.expr)
      case Err(e) => Failed(f, tx, g.sequenceNumber, Text("InvalidExpression"), w.getText(e), st, t, sent)
      case Ok(full) => t == st && GetAnswer(full, f.budget, tx, g.sequenceNumber, sent)
  }

  ghost predicate GetAnswer(full: GetResult, budget: nat, tx: int64, requestSeq: int64, sent: seq<Response>) {
    && Size(full.forest) <= MAX_INT64 && 0 <= full.resume <= Size(full.forest)
    && sent == Carrying(tx, requestSeq, ToSend(Flat(full.forest), full.resume, full.base, budget, tx, requestSeq))
  }

  /** The queries whose results node is still in the tree, as isReachable finds it. */
  ghost function Survivors(results: map<int64, Node>, s: Snap, root: Node): map<int64, Node> {
    map k | k in results && Attached(s, root, results[k]) :: results[k]
  }

  /**
   * A Set or a Delete, changed being the tree it leaves and what it reports: on success
   * copies of the nodes changed, and only the queries that are still reachable stay.
   */
  ghost predicate ChangeEffect(w: World, f: Setup, requestSeq: int64, code: Bytes, tx: int64,
                               changed: (Snap, Result<seq<Node>, SetError>), st: State, t: State,
                               results: map<int64, Node>, results': map<int64, Node>, sent: seq<Response>)
  {
    match changed.1
    case Err(e) =>
      && results' == results
      && Failed(f, tx, requestSeq, if e == Denied then Text("PermissionDenied") else code, w.setText(e),
                State(changed.0, st.last), t, sent)
    case Ok(ns) =>
      && t == State(changed.0, st.last) && results' == Survivors(results, changed.0, f.root)
      && sent == [Response(tx, requestSeq, false, None, CopiesOf(changed.0, ns))]
  }

  ghost predicate SetEffect(w: World, f: Setup, e: Set, tx: int64, st: State, t: State,
                            results: map<int64, Node>, results': map<int64, Node>, sent: seq<Response>)
  {
    Inv(st.s, f.root) &&
    ChangeEffect(w, f, e.sequenceNumber, Text("InvalidSet"), tx,
                 TreePlan.SetAs(w.env, st.s, f.root, f.newNodes, f.auth, e.edits), st, t, results, results', sent)
  }

  ghost predicate DeleteEffect(w: World, f: Setup, d: Delete, tx: int64, st: State, t: State,
                               results: map<int64, Node>, results': map<int64, Node>, sent: seq<Response>)
  {
    Inv(st.s, f.root) &&
    ChangeEffect(w, f, d.sequenceNumber, Text("InvalidDelete"), tx,
                 TreeDelete.DeleteAs(w.env, st.s, f.root, f.auth, d.targets), st, t, results, results', sent)
  }

  function ValueOr(v: Option<NodeValue>): NodeValue {
    if v.Some? then v.value else NoValue
  }

  /** A Create: one new node where its parent expression leads, and a copy of it, or an error. */
  ghost predicate CreateEffect(w: World, f: Setup, c: Create, tx: int64, st: State, t: State, sent: seq<Response>) {
    Inv(st.s, f.root) &&
    match CreateParent(w.env, st.s, f.root, f.auth, f.newNodes, if c.parent.Some? then c.parent.value else [])
    case Err(e) => Failed(f, tx, c.sequenceNumber, Text("InvalidCreate"), w.setText(e), st, t, sent)
    case Ok(parent) =>
      && Created(st, t, parent, c.key, ValueOr(c.value))
      && sent == [Response(tx, c.sequenceNumber, false, None,
                           [WireNode(c.key, ValueOr(c.value), OffsetPointer(0), OffsetPointer(0))])]
  }

  /** One new node, at the end of parent's list. */
  ghost predicate Created(st: State, t: State, parent: Node, key: Bytes, value: NodeValue) {
    exists n :: n in t.s && CreatedAs(st, t, parent, n, key, value)
  }

  ghost predicate CreatedAs(st: State, t: State, parent: Node, n: Node, key: Bytes, value: NodeValue) {
    parent in st.s && n !in st.s && n.key == key && t == AppendUnder(st, parent, n, value)
  }

  lemma CreatedOne(st: State, parent: Node, n: Node, value: NodeValue)
    requires parent in st.s && n !in st.s
    ensures Created(st, AppendUnder(st, parent, n, value), parent, n.key, value)
  {
    hide Appended;
    AppendedFields(st.s, parent, n, value, st.last + 1);
    assert CreatedAs(st, AppendUnder(st, parent, n, value), parent, n, n.key, value);
  }

  // --- queries -----------------------------------------------------------------------------------

  function QueryKey(querySeq: nat): Bytes {
    Text("Query-SequenceNumber=") + Decimal(querySeq)
  }

  /** The expression that a truncated transfer is resumed by. */
  function TransferPath(id: Bytes, querySeq: nat, key: Bytes): Bytes {
    Text("/Sessions/Connection-ID\\=") + id + Text("/QueryResults/Query-SequenceNumber\\=") + Decimal(querySeq) + [SLASH] + key
  }

  /** What one transfer hands over: a subtree of the entries under their key. */
  function TransferRose(key: Bytes, entries: seq<Entry>): Rose {
    Rose(key, NoValue, EntryRoses(entries))
  }

  /** top, under the query's results node, is a subtree with one new leaf for each entry, in order. */
  ghost predicate TransferredTo(st: State, t: State, resultsNode: Node, key: Bytes, entries: seq<Entry>, top: Node) {
    var leaves := KidsOf(t.s, top);
    && resultsNode in st.s && top !in st.s && top.key == key && |leaves| == |entries|
    && (forall i :: 0 <= i < |leaves| ==> leaves[i] !in st.s && leaves[i].key == entries[i].0)
    && NoDup([top] + leaves)
    && t == TreeGrow.AppendLeafSubtree(st, resultsNode, top, leaves, EntryValues(entries))
  }

  /** One transfer: nothing if there is nothing to push, else the subtree, and as much of it as fits in one push. */
  ghost predicate Transferred(f: Setup, querySeq: int64, resultsNode: Node, key: Bytes, entries: seq<Entry>, tx: int64,
                              st: State, t: State, sent: seq<Response>)
  {
    if entries == [] then t == st && sent == []
    else
      && (exists top :: top in t.s && TransferredTo(st, t, resultsNode, key, entries, top))
      && querySeq >= 0 && Size([TransferRose(key, entries)]) <= MAX_INT64
      && sent == Carrying(tx, querySeq, ToSend(Flat([TransferRose(key, entries)]), 0, TransferPath(f.id, querySeq, key),
                                               f.budget, tx, querySeq))
  }

  /** The reply that says a query is registered. */
  function Registration(tx: int64, querySeq: int64): Response {
    Response(tx, querySeq, false, None, [])
  }

  /** n is the query's own results node, new, at the end of the list of its session's results. */
  ghost predicate Registered(f: Setup, querySeq: int64, n: Node, st: State, t: State) {
    querySeq >= 0 && CreatedAs(st, t, f.queryResults, n, QueryKey(querySeq), NoValue)
  }

  /**
   * A Query: refused if its fields do not fit together. Otherwise it gets its results node
   * and its place among the active queries, and is acknowledged; a ONCE query delivers
   * its entries before that and is forgotten again.
   */
  ghost predicate QueryEffect(w: World, f: Setup, q: Query, once: seq<Entry>, key: Bytes, tx: int64, st: State, t: State,
                              results: map<int64, Node>, results': map<int64, Node>, sent: seq<Response>)
  {
    if !ValidQuery(q) then
      results' == results && Failed(f, tx, q.sequenceNumber, Text("InvalidQuery"), w.queryText(q), st, t, sent)
    else
      exists n :: n in t.s && QueryAccepted(f, q, once, key, tx, st, t, results, results', sent, n)
  }

  ghost predicate QueryAccepted(f: Setup, q: Query, once: seq<Entry>, key: Bytes, tx: int64, st: State, t: State,
                                results: map<int64, Node>, results': map<int64, Node>, sent: seq<Response>, n: Node)
  {
    var k := q.sequenceNumber;
    f.queryResults in st.s && sent != []
    && var one := AppendUnder(st, f.queryResults, n, NoValue);
       && Registered(f, k, n, st, one)
       && (if q.collectionMode.CollectOnce? then
             && results' == results - {k}
             && Transferred(f, k, n, key, once, tx, one, t, sent[..|sent| - 1])
             && tx < MAX_INT64
             && sent[|sent| - 1] == Registration(if once == [] then tx else tx + 1, k)
           else
             && results' == results[k := n] && t == one && sent == [Registration(tx, k)])
  }

  /** What executing a request does. */
  ghost predicate Executed(w: World, f: Setup, m: Message, once: seq<Entry>, key: Bytes, tx: int64, st: State, t: State,
                           results: map<int64, Node>, results': map<int64, Node>, sent: seq<Response>)
  {
    match m
    case MsgGet(g) => results' == results && GetEffect(w, f, g, tx, st, t, sent)
    case MsgSet(e) => SetEffect(w, f, e, tx, st, t, results, results', sent)
    case MsgDelete(d) => DeleteEffect(w, f, d, tx, st, t, results, results', sent)
    case MsgCreate(c) => results' == results && CreateEffect(w, f, c, tx, st, t, sent)
    case MsgQuery(q) => QueryEffect(w, f, q, once, key, tx, st, t, results, results', sent)
    case _ => true
  }

  // --- putting effects together --------------------------------------------------------------

  lemma ChangeFailed(w: World, f: Setup, requestSeq: int64, code: Bytes, tx: int64,
                     changed: (Snap, Result<seq<Node>, SetError>), st: State, t: State,
                     results: map<int64, Node>, sent: seq<Response>)
    requires changed.1.Err?
    requires Failed(f, tx, requestSeq, if changed.1.error == Denied then Text("PermissionDenied") else code,
                    w.setText(changed.1.error), State(changed.0, st.last), t, sent)
    ensures ChangeEffect(w, f, requestSeq, code, tx, changed, st, t, results, results, sent)
  {
  }

  lemma ChangeDone(w: World, f: Setup, requestSeq: int64, code: Bytes, tx: int64,
                   changed: (Snap, Result<seq<Node>, SetError>), st: State, t: State,
                   results: map<int64, Node>, results': map<int64, Node>, sent: seq<Response>)
    requires changed.1.Ok? && t == State(changed.0, st.last) && results' == Survivors(results, changed.0, f.root)
    requires sent == [Response(tx, requestSeq, false, None, CopiesOf(changed.0, changed.1.value))]
    ensures ChangeEffect(w, f, requestSeq, code, tx, changed, st, t, results, results', sent)
  {
    hide Failed, Text, Survivors;
  }

  lemma CreateDone(w: World, f: Setup, c: Create, parent: Node, tx: int64, st: State, t: State, sent: seq<Response>)
    requires Inv(st.s, f.root)
    requires CreateParent(w.env, st.s, f.root, f.auth, f.newNodes, if c.parent.Some? then c.parent.value else []) == Ok(parent)
    requires Created(st, t, parent, c.key, ValueOr(c.value))
    requires sent == [Response(tx, c.sequenceNumber, false, None,
                               [WireNode(c.key, ValueOr(c.value), OffsetPointer(0), OffsetPointer(0))])]
    ensures CreateEffect(w, f, c, tx, st, t, sent)
  {
    hide Inv, CreateParent, Created, Failed, Text;
  }

  lemma CreateFailed(w: World, f: Setup, c: Create, e: SetError, tx: int64, st: State, t: State, sent: seq<Response>)
    requires Inv(st.s, f.root)
    requires CreateParent(w.env, st.s, f.root, f.auth, f.newNodes, if c.parent.Some? then c.parent.value else []) == Err(e)
    requires Failed(f, tx, c.sequenceNumber, Text("InvalidCreate"), w.setText(e), st, t, sent)
    ensures CreateEffect(w, f, c, tx, st, t, sent)
  {
    hide Inv, CreateParent, Created, Failed, Text;
  }

  lemma TransferDone(f: Setup, querySeq: int64, resultsNode: Node, key: Bytes, entries: seq<Entry>, tx: int64,
                     st: State, t: State, sent: seq<Response>)
    requires entries != [] && querySeq >= 0 && Size([TransferRose(key, entries)]) <= MAX_INT64
    requires exists top :: top in t.s && TransferredTo(st, t, resultsNode, key, entries, top)
    requires sent == Carrying(tx, querySeq, ToSend(Flat([TransferRose(key, entries)]), 0, TransferPath(f.id, querySeq, key),
                                                   f.budget, tx, querySeq))
    ensures Transferred(f, querySeq, resultsNode, key, entries, tx, st, t, sent)
  {
    hide TransferredTo, ToSend, Flat, Size, TransferPath, Carrying, TransferRose;
  }

  lemma NothingTransferred(f: Setup, querySeq: int64, resultsNode: Node, key: Bytes, tx: int64, st: State)
    ensures Transferred(f, querySeq, resultsNode, key, [], tx, st, st, [])
  {
    hide TransferredTo, ToSend, Flat, Size, TransferPath, Carrying, TransferRose;
  }

  // --- what is reported is in the tree ----------------------------------------------------------

  lemma {:induction false} TouchesInside(keys: set<Node>, plans: seq<Plan>)
    requires PlansOk(keys, plans)
    ensures forall n :: n in AllTouches(keys, plans) ==> n in keys
  {
    if plans != [] {
      TouchesInside(keys, plans[..|plans| - 1]);
    }
  }

  lemma SetReportsKnown(env: Engine, s: Snap, root: Node, staging: Node?, auth: Option<Checker>, edits: seq<SetEdit>)
    requires Inv(s, root)
    ensures var (s', r) := TreePlan.SetAs(env, s, root, staging, auth, edits);
            r.Ok? ==> forall n :: n in r.value ==> n in s
  {
    hide PlanAll, Apply, Rollback, Inv, FirstSeen, AllTouches;
    var plans := PlanAll(env, s, root, staging, auth, edits);
    if plans.Ok? {
      PlanAllOk(env, s, root, staging, auth, edits);
      if Apply(s, plans.value).Done? {
        TouchedIsFirstSeen(s, plans.value);
        TouchesInside(s.Keys, plans.value);
        var touched := AllTouches(s.Keys, plans.value);
        forall n | n in FirstSeen(touched)
          ensures n in s
        {
          FirstSeenMember(touched, n);
        }
      }
    }
  }

  lemma DeleteReportsKnown(env: Engine, s: Snap, root: Node, auth: Option<Checker>, targets: seq<Bytes>)
    requires Inv(s, root)
    ensures var (s', r) := TreeDelete.DeleteAs(env, s, root, auth, targets);
            r.Ok? ==> forall n :: n in r.value ==> n in s
  {
    hide MatchAll, Inv, FirstSeen, DeleteAllowed, RemoveAll, Matched;
    if MatchAll(env, s, root, auth, targets).Ok? {
      MatchedMembers(env, s, root, auth, targets);
    }
  }
}
