/**
 * One client's session, after goimpl/internal/server/server.go: requests are recognised
 * by sequence number and executed once, retransmitted ones are answered from the reply
 * cache, and each active query goes together with its results node. The methods are
 * proved against the bookkeeping of SessionBook and the effects of SessionEffects.
 */
module Session {
  import opened Basics
  import opened WireTypes
  import opened Expression
  import opened Authz
  import opened Flatten
  import opened Fit
  import opened TreeState
  import opened TreeRead
  import opened TreeSet
  import opened TreePlan
  import opened TreeDelete
  import opened TreeGrow
  import opened TreeApart
  import opened TreeHeap
  import opened TreePlanMethods
  import opened TreeGrowMethods
  import opened TreeGetMethods
  import opened Replies
  import opened QueryRunner
  import opened ResultEntries
  import opened SessionBook
  import opened SessionEffects
  import Codec
  import CodecMethods
  import Continuation
  import Receiver
  import Sender

  /** The two maps that handleQuery and reapCancelledQueries keep in step. */
  ghost predicate InStep(active: map<int64, Runner>, results: map<int64, Node>, nodes: set<Node>) {
    active.Keys == results.Keys && forall k :: k in results ==> results[k] in nodes
  }

  lemma InStepGrows(active: map<int64, Runner>, results: map<int64, Node>, nodes: set<Node>, nodes': set<Node>)
    requires InStep(active, results, nodes) && nodes <= nodes'
    ensures InStep(active, results, nodes')
  {
  }

  lemma InStepAdds(active: map<int64, Runner>, results: map<int64, Node>, nodes: set<Node>, nodes': set<Node>,
                   k: int64, r: Runner, n: Node)
    requires InStep(active, results, nodes) && nodes <= nodes' && n in nodes'
    ensures InStep(active[k := r], results[k := n], nodes')
  {
  }

  /** The session's own results nodes, and the container they are made in, are not staged. */
  ghost predicate AllApart(s: Snap, staging: Node, queryResults: Node, results: map<int64, Node>) {
    Apart(s, staging, queryResults) && forall k :: k in results ==> Apart(s, staging, results[k])
  }

  lemma StaysApart(s: Snap, s': Snap, staging: Node, queryResults: Node, results: map<int64, Node>)
    requires AllApart(s, staging, queryResults, results) && SameParents(s, s')
    ensures AllApart(s', staging, queryResults, results)
  {
    hide Apart, SameParents;
    ApartStays(s, s', staging, queryResults);
    forall k | k in results
      ensures Apart(s', staging, results[k])
    {
      ApartStays(s, s', staging, results[k]);
    }
  }

  lemma SetStaysApart(env: Engine, s: Snap, root: Node, staging: Node, auth: Option<Checker>, edits: seq<SetEdit>,
                      queryResults: Node, results: map<int64, Node>)
    requires Inv(s, root) && AllApart(s, staging, queryResults, results)
    ensures AllApart(TreePlan.SetAs(env, s, root, staging, auth, edits).0, staging, queryResults, results)
  {
    hide Apart, Inv, TreePlan.SetAs;
    SetKeepsApart(env, s, root, staging, auth, edits, queryResults);
    forall k | k in results
      ensures Apart(TreePlan.SetAs(env, s, root, staging, auth, edits).0, staging, results[k])
    {
      SetKeepsApart(env, s, root, staging, auth, edits, results[k]);
    }
  }

  lemma DeleteStaysApart(env: Engine, s: Snap, root: Node, auth: Option<Checker>, targets: seq<Bytes>,
                         staging: Node, queryResults: Node, results: map<int64, Node>)
    requires Inv(s, root) && AllApart(s, staging, queryResults, results)
    ensures AllApart(TreeDelete.DeleteAs(env, s, root, auth, targets).0, staging, queryResults, results)
  {
    hide Apart, Inv, TreeDelete.DeleteAs;
    DeleteKeepsApart(env, s, root, auth, targets, staging, queryResults);
    forall k | k in results
      ensures Apart(TreeDelete.DeleteAs(env, s, root, auth, targets).0, staging, results[k])
    {
      DeleteKeepsApart(env, s, root, auth, targets, staging, results[k]);
    }
  }

  /** Of two children of one node neither lies below the other. */
  lemma SiblingsApart(s: Snap, root: Node, parent: Node, a: Node, b: Node)
    requires Inv(s, root) && parent in s && a in s[parent].children && b in s[parent].children && a != b
    ensures Apart(s, a, b)
  {
    OwnedBy(s, root, parent, a);
    OwnedBy(s, root, parent, b);
    InvGrounds(s, root, a);
    InvGrounds(s, root, b);
    hide Inv;
    HeightStep(s, a);
    HeightStep(s, b);
    if Descends(s, a, b) && parent != a {
      DescendsHigher(s, a, parent);
    }
  }

  lemma ContainerIsChild(s: Snap, parent: Node, key: Bytes, n: Node)
    requires IsPath(s, parent, [key], n)
    ensures parent in s && n in s[parent].children && n.key == key
  {
    assert [key][1..] == [];
    FirstWithKeySpec(s[parent].children, key);
  }

  // --- containers ------------------------------------------------------------------------------

  method EnsureContainer(tree: Tree, start: Node, keys: seq<Bytes>, ghost others: seq<(Node, seq<Bytes>, Node)>)
    returns (n: Node)
    requires tree.Valid() && start in tree.nodes
    requires forall i :: 0 <= i < |others| ==> IsPath(tree.Snap(), others[i].0, others[i].1, others[i].2)
    modifies tree, tree.nodes
    ensures tree.Valid() && n in tree.nodes && old(tree.nodes) <= tree.nodes && fresh(tree.nodes - old(tree.nodes))
    ensures IsPath(tree.Snap(), start, keys, n)
    ensures forall i :: 0 <= i < |others| ==> IsPath(tree.Snap(), others[i].0, others[i].1, others[i].2)
  {
    hide Tree.Snap, Tree.Valid, Inv, IdsOk, EnsurePath, Supplies, IsPath, TreeGrow.AppendUnder, Grows;
    tree.Sound();
    ghost var st := StateOf(tree);
    ghost var made: seq<Node>;
    n, made := EnsurePathFrom(tree, start, keys);
    EnsurePathLeadsThere(st, tree.root, start, keys, made);
    forall i | 0 <= i < |others|
      ensures IsPath(tree.Snap(), others[i].0, others[i].1, others[i].2)
    {
      PathSurvivesEnsure(st, tree.root, start, keys, made, others[i].0, others[i].1, others[i].2);
    }
  }

  lemma {:induction false} PathConcat(s: Snap, a: Node, keys: seq<Bytes>, b: Node, more: seq<Bytes>, c: Node)
    requires IsPath(s, a, keys, b) && IsPath(s, b, more, c)
    ensures IsPath(s, a, keys + more, c)
    decreases |keys|
  {
    if keys == [] {
      assert keys + more == more;
    } else {
      assert (keys + more)[1..] == keys[1..] + more;
      PathConcat(s, FirstWithKey(s[a].children, keys[0]), keys[1..], b, more, c);
    }
  }

  /** The keys of a session's own node, from the root. */
  function SessionKeys(id: Bytes): seq<Bytes> {
    [Text("Sessions"), Text("Connection-ID=") + id]
  }

  /** The containers under /Sessions that every session has, each where it belongs. */
  method MakeContainers(tree: Tree, id: Bytes) returns (newNodes: Node, errors: Node, queryResults: Node)
    requires tree.Valid()
    modifies tree, tree.nodes
    ensures tree.Valid() && fresh(tree.nodes - old(tree.nodes))
    ensures newNodes in tree.nodes && errors in tree.nodes && queryResults in tree.nodes
    ensures IsPath(tree.Snap(), tree.root, SessionKeys(id) + [NEW_NODES], newNodes)
    ensures IsPath(tree.Snap(), tree.root, SessionKeys(id) + [ERRORS], errors)
    ensures IsPath(tree.Snap(), tree.root, SessionKeys(id) + [QUERY_RESULTS], queryResults)
    ensures Apart(tree.Snap(), newNodes, queryResults)
  {
    hide Tree.Snap, Tree.Valid, IsPath, SessionKeys, Apart, Inv, IdsOk;
    tree.RootKnown();
    ghost var root := tree.root;
    var base := EnsureContainer(tree, tree.root, SessionKeys(id), []);
    ghost var top := (root, SessionKeys(id), base);
    newNodes := EnsureContainer(tree, base, [NEW_NODES], [top]);
    ghost var first := (base, [NEW_NODES], newNodes);
    assert IsPath(tree.Snap(), [top][0].0, [top][0].1, [top][0].2);
    errors := EnsureContainer(tree, base, [ERRORS], [top, first]);
    ghost var second := (base, [ERRORS], errors);
    assert IsPath(tree.Snap(), [top, first][0].0, [top, first][0].1, [top, first][0].2);
    assert IsPath(tree.Snap(), [top, first][1].0, [top, first][1].1, [top, first][1].2);
    queryResults := EnsureContainer(tree, base, [QUERY_RESULTS], [top, first, second]);
    ghost var all := [top, first, second];
    assert IsPath(tree.Snap(), all[0].0, all[0].1, all[0].2) && IsPath(tree.Snap(), all[1].0, all[1].1, all[1].2);
    assert IsPath(tree.Snap(), all[2].0, all[2].1, all[2].2);
    PathConcat(tree.Snap(), root, SessionKeys(id), base, [NEW_NODES], newNodes);
    PathConcat(tree.Snap(), root, SessionKeys(id), base, [ERRORS], errors);
    PathConcat(tree.Snap(), root, SessionKeys(id), base, [QUERY_RESULTS], queryResults);
    tree.Sound();
    ContainerIsChild(tree.Snap(), base, NEW_NODES, newNodes);
    ContainerIsChild(tree.Snap(), base, QUERY_RESULTS, queryResults);
    SiblingsApart(tree.Snap(), root, base, newNodes, queryResults);
  }

  class Session {
    const id: Bytes
    const tree: Tree
    const auth: Option<Checker>
    const newNodes: Node
    const errors: Node
    const queryResults: Node
    const receiver: Receiver.Receiver
    const sender: Sender.Sender
    const cache: ReplyCache
    const budget: nat   // the datagram size to fit into; 0 is "not known"
    var nextSeq: int64
    var activeQueries: map<int64, Runner>
    var queryResultNodes: map<int64, Node>
    ghost var history: seq<int64>   // the requests executed, in order
    ghost var executed: set<int64>
    ghost var queried: set<int64>
    ghost var outbox: seq<Response>

    ghost function Book(): Book
      reads `history, `executed, `queried, `outbox, `nextSeq, receiver, cache, sender
    {
      SessionBook.Book(receiver.State(), history, executed, queried, cache.entries, cache.clock, outbox, nextSeq, sender.pending)
    }

    ghost function Setup(): Setup {
      SessionEffects.Setup(id, tree.root, newNodes, errors, queryResults, auth, budget)
    }

    /** What holds even after a request that has left the tree outside its invariant. */
    ghost predicate Ready()
      reads this, tree, tree.nodes, receiver, cache, sender
    {
      && newNodes in tree.nodes && errors in tree.nodes && queryResults in tree.nodes && tree.root in tree.nodes
      && cache.Valid() && BookOk(Book())
      && InStep(activeQueries, queryResultNodes, tree.nodes)
      && AllApart(tree.Snap(), newNodes, queryResults, queryResultNodes)
    }

    ghost predicate Valid()
      reads this, tree, tree.nodes, receiver, cache, sender
    {
      Ready() && tree.Valid()
    }

    /** newSession: the session's own containers, made on the way. */
    constructor (tree: Tree, id: Bytes, auth: Option<Checker>, budget: nat, retransmitInterval: int, maxRetransmits: int)
      requires tree.Valid()
      modifies tree, tree.nodes
      ensures Valid() && this.tree == tree && fresh(tree.nodes - old(tree.nodes))
      ensures Book() == SessionBook.Empty()
      ensures this.id == id && this.auth == auth && this.budget == budget
      ensures IsPath(tree.Snap(), tree.root, SessionKeys(id) + [NEW_NODES], newNodes)
      ensures IsPath(tree.Snap(), tree.root, SessionKeys(id) + [ERRORS], errors)
      ensures IsPath(tree.Snap(), tree.root, SessionKeys(id) + [QUERY_RESULTS], queryResults)
    {
      hide Tree.Snap, Tree.Valid, ReplyCache.Valid, IsPath, BookOk, Apart;
      var n, e, q := MakeContainers(tree, id);
      this.tree, this.id, this.auth, this.budget := tree, id, auth, budget;
      newNodes, errors, queryResults := n, e, q;
      receiver := new Receiver.Receiver();
      sender := new Sender.Sender(retransmitInterval, maxRetransmits);
      cache := new ReplyCache();
      nextSeq, activeQueries, queryResultNodes, history, executed, queried, outbox := 0, map[], map[], [], {}, {}, [];
      new;
      EmptyBook();
      tree.RootKnown();
    }

    lemma Known()
      requires Valid()
      ensures Inv(tree.Snap(), tree.root) && BookOk(Book())
    {
      hide BookOk, AllApart;
      tree.Sound();
    }

    // --- sending -------------------------------------------------------------------------

    /** The one place where a reply goes out: tracked under its transport number. */
    method Transmit(resp: Response, now: int)
      requires nextSeq < MAX_INT64 && resp.sequenceNumber == nextSeq + 1
      modifies `nextSeq, `outbox, sender
      ensures nextSeq == old(nextSeq) + 1 && outbox == old(outbox) + [resp]
      ensures sender.pending == Sender.Track(old(sender.pending), nextSeq, Octets(resp), now)
      ensures Book() == SessionBook.Post(old(Book()), resp, now)
    {
      hide Codec.MessageOctets;
      nextSeq := nextSeq + 1;
      var payload := CodecMethods.MarshalMessage(MsgResponse(resp));
      var _ := sender.Send(nextSeq, payload, now);
      outbox := outbox + [resp];
    }

    /** The one answer to a request, sent and kept. */
    method Answer(resp: Response, kept: Response, now: nat)
      requires Ready() && nextSeq < MAX_INT64 && cache.clock <= now
      requires resp.sequenceNumber == nextSeq + 1 && SameReply(resp, kept)
      requires resp.inReplyTo in executed && Unanswered(Book(), resp.inReplyTo) && (resp.inReplyTo in queried ==> resp.nodes == [])
      modifies `nextSeq, `outbox, sender, cache
      ensures Ready() && cache.clock == now && nextSeq == old(nextSeq) + 1 && outbox == old(outbox) + [resp]
      ensures cache.entries == KeepingToo(old(cache.entries), resp.inReplyTo, kept, now)
      ensures sender.pending == Sender.Track(old(sender.pending), nextSeq, Octets(resp), now)
      ensures Book() == SessionBook.Post(old(Book()), resp, now).(entries := cache.entries, clock := now)
      ensures Handled(old(Book()), resp.inReplyTo, now, Book())
    {
      hide BookOk, ReplyCache.Valid, InStep, AllApart, Octets, Unanswered, Handled, SameReply;
      ghost var book := Book();
      Transmit(resp, now);
      cache.CacheAt(resp.inReplyTo, kept, now);
      AnswerKeepsBook(book, resp, kept, now);
    }

    /** sendResponse: under a transport number of its own, whatever number it had before. */
    method SendResponse(resp: Response, now: int)
      requires nextSeq < MAX_INT64
      modifies `nextSeq, `outbox, sender
      ensures nextSeq == old(nextSeq) + 1 && outbox == old(outbox) + [resp.(sequenceNumber := nextSeq)]
      ensures sender.pending == Sender.Track(old(sender.pending), nextSeq, Octets(resp.(sequenceNumber := nextSeq)), now)
      ensures Book() == SessionBook.Post(old(Book()), resp.(sequenceNumber := nextSeq), now)
    {
      hide Octets;
      Transmit(resp.(sequenceNumber := nextSeq + 1), now);
    }

    /** respondAndCache. */
    method RespondAndCache(resp: Response, now: nat)
      requires Ready() && nextSeq < MAX_INT64 && cache.clock <= now
      requires resp.inReplyTo in executed && Unanswered(Book(), resp.inReplyTo) && (resp.inReplyTo in queried ==> resp.nodes == [])
      modifies `nextSeq, `outbox, sender, cache
      ensures Ready() && cache.clock == now && nextSeq == old(nextSeq) + 1
      ensures outbox == old(outbox) + [resp.(sequenceNumber := nextSeq)]
      ensures cache.entries == KeepingToo(old(cache.entries), resp.inReplyTo, resp, now)
      ensures sender.pending == Sender.Track(old(sender.pending), nextSeq, Octets(resp.(sequenceNumber := nextSeq)), now)
      ensures Book() == SessionBook.Post(old(Book()), resp.(sequenceNumber := nextSeq), now)
                          .(entries := cache.entries, clock := now)
      ensures Handled(old(Book()), resp.inReplyTo, now, Book())
    {
      hide Session.Ready, Octets, Unanswered, Handled, SameReply, KeepingToo;
      SameButForNumber(resp, nextSeq + 1);
      Answer(resp.(sequenceNumber := nextSeq + 1), resp, now);
    }

    /** A push to a query: sent, and not kept. */
    method Push(resp: Response, now: nat)
      requires Ready() && nextSeq < MAX_INT64 && resp.sequenceNumber == nextSeq + 1
      requires resp.inReplyTo in queried && resp.nodes != []
      modifies `nextSeq, `outbox, sender
      ensures Ready() && nextSeq == old(nextSeq) + 1 && outbox == old(outbox) + [resp]
      ensures sender.pending == Sender.Track(old(sender.pending), nextSeq, Octets(resp), now)
      ensures Book() == SessionBook.Post(old(Book()), resp, now) && Pushed(old(Book()), resp.inReplyTo, now, Book())
      ensures Unanswered(old(Book()), resp.inReplyTo) ==> Unanswered(Book(), resp.inReplyTo)
    {
      hide BookOk, ReplyCache.Valid, InStep, AllApart, Octets, Unanswered;
      ghost var book := Book();
      Transmit(resp, now);
      PushKeepsBook(book, resp, now);
    }

    /** A transport number given out for a reply of which nothing fits. */
    method Skip(ghost s: int64, ghost now: nat)
      requires Ready() && nextSeq < MAX_INT64
      modifies `nextSeq
      ensures Ready() && nextSeq == old(nextSeq) + 1 && Book() == old(Book()).(next := nextSeq)
      ensures old(Unanswered(Book(), s)) ==> Handled(old(Book()), s, now, Book()) && Unanswered(Book(), s)
      ensures s in queried ==> Pushed(old(Book()), s, now, Book())
    {
      hide BookOk, ReplyCache.Valid, InStep, AllApart, Octets, Unanswered, Handled, Pushed;
      ghost var book := Book();
      nextSeq := nextSeq + 1;
      NextKeepsBook(book, nextSeq);
      if Unanswered(book, s) {
        NothingHandled(book, s, now, nextSeq);
      }
      NextUnanswered(book, s, now, nextSeq);
    }

    /**
     * sendFittedNodes: flat from resume on, cut to the datagram budget if it is known and
     * too small; nothing at all where nothing fits. A query's pushes are not kept.
     */
    method SendFitted(requestSeq: int64, flat: seq<WireNode>, resume: nat, base: Bytes, keep: bool,
                      now: nat) returns (sent: Option<seq<WireNode>>)
      requires Ready() && nextSeq < MAX_INT64 && cache.clock <= now && resume <= |flat|
      requires requestSeq in executed
      requires if keep then requestSeq !in queried && Unanswered(Book(), requestSeq) else requestSeq in queried && resume < |flat|
      modifies `nextSeq, `outbox, sender, cache
      ensures Ready() && old(cache.clock) <= cache.clock <= now && nextSeq == old(nextSeq) + 1
      ensures sent == ToSend(flat, resume, base, budget, nextSeq, requestSeq)
      ensures outbox == old(outbox) + Carrying(nextSeq, requestSeq, sent)
      ensures sender.pending == if sent.None? then old(sender.pending)
                                else Sender.Track(old(sender.pending), nextSeq, Octets(outbox[|old(outbox)|]), now)
      ensures cache.entries == if keep && sent.Some?
                               then KeepingToo(old(cache.entries), requestSeq, outbox[|old(outbox)|], now)
                               else old(cache.entries)
      ensures if keep then Handled(old(Book()), requestSeq, now, Book())
              else
                && Pushed(old(Book()), requestSeq, now, Book())
                && Book() == PostAll(old(Book()), outbox[|old(outbox)|..], now).(next := nextSeq)
                && (Unanswered(old(Book()), requestSeq) ==> Unanswered(Book(), requestSeq))
    {
      hide Session.Ready, Unanswered, Handled, ToSend, Pushed, SameReply, KeepingToo, Octets, PostAll;
      sent := Fitted(flat, resume, base, nextSeq + 1, requestSeq);
      if sent.None? {
        assert outbox[|old(outbox)|..] == [];
        NothingPosted(Book(), now);
        Skip(requestSeq, now);
        return;
      }
      var resp := Response(nextSeq + 1, requestSeq, false, None, sent.value);
      if keep {
        SameAsItself(resp);
        Answer(resp, resp, now);
      } else {
        OnePosted(Book(), resp, now);
        Push(resp, now);
        assert outbox[|old(outbox)|..] == [resp];
      }
    }

    /** The nodes to send: all of them, or as many as the budget allows if that is any. */
    method Fitted(flat: seq<WireNode>, resume: nat, base: Bytes, tx: int64, requestSeq: int64)
      returns (nodes: Option<seq<WireNode>>)
      requires resume <= |flat|
      ensures nodes == ToSend(flat, resume, base, budget, tx, requestSeq)
    {
      hide Delivered, Codec.ResponseSize;
      if budget > 0 {
        nodes := Deliver(flat, resume, base, budget, Codec.ResponseSize(tx, requestSeq));
      } else {
        nodes := Some(flat[resume..]);
      }
    }

    // --- errors ------------------------------------------------------------------------------

    /** One new node anywhere in the tree. */
    method Append(parent: Node, key: Bytes, value: NodeValue) returns (n: Node)
      requires Ready() && parent in tree.nodes
      modifies tree, tree.nodes
      ensures Ready() && (old(tree.Valid()) ==> tree.Valid())
      ensures fresh(n) && n.key == key && tree.nodes == old(tree.nodes) + {n}
      ensures StateOf(tree) == TreeGrow.AppendUnder(old(StateOf(tree)), parent, n, value)
    {
      hide BookOk, Tree.Snap, Tree.Valid, ReplyCache.Valid, InStep, AllApart, TreeGrow.AppendUnder;
      ghost var st := StateOf(tree);
      n := TreeGrowMethods.AppendUnder(tree, parent, key, value);
      InStepGrows(activeQueries, queryResultNodes, old(tree.nodes), tree.nodes);
      AppendedSameParents(st, parent, n, value);
      StaysApart(st.s, tree.Snap(), newNodes, queryResults, queryResultNodes);
    }

    /** recordError: an error node with its message and the request it belongs to, and nothing else. */
    method RecordError(code: Bytes, message: Bytes, causeSeq: int64) returns (pointer: NodePointer)
      requires Ready() && causeSeq >= 0
      modifies tree, tree.nodes
      ensures Ready() && (old(tree.Valid()) ==> tree.Valid()) && fresh(tree.nodes - old(tree.nodes))
      ensures pointer == AbsolutePointer(ErrorPath(id, code))
      ensures Recorded(old(StateOf(tree)), StateOf(tree), errors, code, message, causeSeq)
    {
      hide Tree.Snap, Tree.Valid, TreeGrow.AppendUnder, Session.Ready;
      ghost var st := StateOf(tree);
      ErrorsKnown();
      var e := Append(errors, code, NoValue);
      var m := Append(e, Text("message"), OctetStringValue(message));
      var r := Append(e, Text("requestSequenceNumber"), Counter64Value(causeSeq));
      assert RecordedAs(st, StateOf(tree), errors, code, message, causeSeq, e, m, r);
      return AbsolutePointer(Text("/Sessions/Connection-ID\\=") + id + Text("/Errors/") + code);
    }

    lemma ErrorsKnown()
      requires Ready()
      ensures errors in tree.nodes && queryResults in tree.nodes
    {
      hide BookOk, AllApart;
    }

    method RespondError(requestSeq: int64, code: Bytes, message: Bytes, now: nat)
      requires Ready() && nextSeq < MAX_INT64 && cache.clock <= now && requestSeq >= 0
      requires requestSeq in executed && Unanswered(Book(), requestSeq)
      modifies `nextSeq, `outbox, sender, cache, tree, tree.nodes
      ensures Ready() && (old(tree.Valid()) ==> tree.Valid()) && fresh(tree.nodes - old(tree.nodes))
      ensures cache.clock == now && nextSeq == old(nextSeq) + 1 && old(outbox) <= outbox
      ensures Failed(Setup(), nextSeq, requestSeq, code, message, old(StateOf(tree)), StateOf(tree), outbox[|old(outbox)|..])
      ensures Handled(old(Book()), requestSeq, now, Book())
    {
      hide Session.Ready, Tree.Valid, Tree.Snap, Recorded, ErrorPath, Handled, Unanswered, KeepingToo, Octets;
      var pointer := RecordError(code, message, requestSeq);
      RespondAndCache(Response(0, requestSeq, true, Some(pointer), []), now);
      assert outbox[|old(outbox)|..] == [ErrorReply(id, nextSeq, requestSeq, code)];
    }

    // --- Get, Set, Delete, Create ----------------------------------------------------------------

    method HandleGet(w: World, g: Get, now: nat)
      requires Valid() && nextSeq < MAX_INT64 && cache.clock <= now && g.sequenceNumber >= 0
      requires g.sequenceNumber in executed && g.sequenceNumber !in queried && Unanswered(Book(), g.sequenceNumber)
      requires g.target.AbsolutePointer? ==>
                 Addressable(w.env, tree.Snap(), tree.root, auth, SplitResumeSuffix(g.target.expr).0)
      modifies `nextSeq, `outbox, sender, cache, tree, tree.nodes
      ensures Valid() && fresh(tree.nodes - old(tree.nodes)) && cache.clock <= now && nextSeq == old(nextSeq) + 1
      ensures old(outbox) <= outbox
      ensures GetEffect(w, Setup(), g, nextSeq, old(StateOf(tree)), StateOf(tree), outbox[|old(outbox)|..])
      ensures Handled(old(Book()), g.sequenceNumber, now, Book())
    {
      hide Session.Ready, Tree.Valid, BookOk, Tree.Snap, GetFull, Flat, Window, Addressable, Failed, Handled,
           Unanswered, Text;
      hide Delivered, Inv, IdsOk, Size, ToSend, Pushed, Octets, Session.Book;
      Known();
      if !g.target.AbsolutePointer? {
        RespondError(g.sequenceNumber, Text("InvalidExpression"), Text("Get.target must be an absolute expression"), now);
        return;
      }
      var r := GetFullAs(tree, w.env, g.target.expr, auth);
      if r.Err? {
        RespondError(g.sequenceNumber, Text("InvalidExpression"), w.getText(r.error), now);
        return;
      }
      var (flat, resume, base) := r.value;
      var sent := SendFitted(g.sequenceNumber, flat, resume, base, true, now);
      assert outbox[|old(outbox)|..] == Carrying(nextSeq, g.sequenceNumber, sent);
    }

    /** reapCancelledQueries: forgets, and stops, each query whose results node is no longer in the tree. */
    method Reap() returns (stopped: set<int64>)
      requires Ready()
      modifies `activeQueries, `queryResultNodes
      ensures Ready()
      ensures queryResultNodes == Survivors(old(queryResultNodes), tree.Snap(), tree.root)
      ensures tree.Valid() ==> forall k :: k in old(queryResultNodes) ==>
                (k in queryResultNodes <==> Below(tree.Snap(), tree.root, old(queryResultNodes)[k]))
      ensures stopped == old(activeQueries.Keys) - activeQueries.Keys
      ensures forall k :: k in activeQueries ==> activeQueries[k] == old(activeQueries)[k]
    {
      hide BookOk, Tree.Snap, Tree.Valid, ReplyCache.Valid, Attached, Below, Grounded;
      ghost var results := queryResultNodes;
      stopped := ReapEach();
      if tree.Valid() {
        forall k | k in results
          ensures k in queryResultNodes <==> Below(tree.Snap(), tree.root, results[k])
        {
          Reaped(results[k]);
        }
      }
    }

    lemma Reaped(n: Node)
      requires tree.Valid() && n in tree.nodes
      ensures tree.root in tree.Snap() && n in tree.Snap()
      ensures Attached(tree.Snap(), tree.root, n) <==> Below(tree.Snap(), tree.root, n)
    {
      hide Tree.Snap, Tree.Valid, Attached, Below, Inv;
      tree.Sound();
      AttachedIsBelow(tree.Snap(), tree.root, n);
    }

    /** The loop over the results nodes. */
    method ReapEach() returns (stopped: set<int64>)
      requires tree.root in tree.nodes && InStep(activeQueries, queryResultNodes, tree.nodes)
      requires forall k :: k in queryResultNodes ==> Grounded(tree.Snap(), queryResultNodes[k])
      modifies `activeQueries, `queryResultNodes
      ensures InStep(activeQueries, queryResultNodes, tree.nodes)
      ensures queryResultNodes == Survivors(old(queryResultNodes), tree.Snap(), tree.root)
      ensures stopped == old(activeQueries.Keys) - activeQueries.Keys
      ensures forall k :: k in activeQueries ==> activeQueries[k] == old(activeQueries)[k]
    {
      hide Tree.Snap, Tree.Valid, Attached, Grounded;
      ghost var s, root := tree.Snap(), tree.root;
      stopped := {};
      var left := queryResultNodes.Keys;
      while left != {}
        invariant left <= old(queryResultNodes).Keys && activeQueries.Keys == queryResultNodes.Keys <= old(activeQueries.Keys)
        invariant forall k :: k in activeQueries ==> activeQueries[k] == old(activeQueries)[k]
        invariant forall k :: k in queryResultNodes <==>
                    k in old(queryResultNodes) && (k in left || Attached(s, root, old(queryResultNodes)[k]))
        invariant forall k :: k in queryResultNodes ==> queryResultNodes[k] == old(queryResultNodes)[k]
        invariant stopped == old(activeQueries.Keys) - activeQueries.Keys
      {
        var k :| k in left;
        var reachable := tree.IsReachable(queryResultNodes[k]);
        left := left - {k};
        if reachable {
          continue;
        }
        if k in activeQueries {
          stopped := stopped + {k};
          activeQueries := activeQueries - {k};
        }
        queryResultNodes := queryResultNodes - {k};
      }
    }

    /** Tree.Snapshot. */
    method Snapshot(nodes: seq<Node>) returns (out: seq<WireNode>)
      requires forall n :: n in nodes ==> n in tree.nodes
      ensures out == CopiesOf(tree.Snap(), nodes)
    {
      hide Tree.Snap;
      out := [];
      var i := 0;
      while i < |nodes|
        invariant 0 <= i <= |nodes| && |out| == i
        invariant forall j :: 0 <= j < i ==> out[j] == CopiesOf(tree.Snap(), nodes)[j]
      {
        var n := nodes[i];
        assert n in tree.nodes;
        tree.Fields(n);
        out := out + [WireNode(n.key, n.value, OffsetPointer(0), OffsetPointer(0))];
        i := i + 1;
      }
    }

    /** The tail of handleSet and handleDelete: an error node, or reaping and a copy of the nodes changed. */
    method AnswerChange(w: World, requestSeq: int64, r: Result<seq<Node>, SetError>, code: Bytes, now: nat,
                        ghost changed: (Snap, Result<seq<Node>, SetError>), ghost st: TreeGrow.State)
      requires Ready() && nextSeq < MAX_INT64 && cache.clock <= now && requestSeq >= 0
      requires requestSeq in executed && requestSeq !in queried && Unanswered(Book(), requestSeq)
      requires r == changed.1 && StateOf(tree) == TreeGrow.State(changed.0, st.last)
      requires r.Ok? ==> forall n :: n in r.value ==> n in tree.nodes
      modifies `nextSeq, `outbox, `activeQueries, `queryResultNodes, sender, cache, tree, tree.nodes
      ensures Ready() && (old(tree.Valid()) ==> tree.Valid()) && fresh(tree.nodes - old(tree.nodes))
      ensures cache.clock <= now && nextSeq == old(nextSeq) + 1
      ensures old(outbox) <= outbox
      ensures ChangeEffect(w, Setup(), requestSeq, code, nextSeq, changed, st, StateOf(tree),
                           old(queryResultNodes), queryResultNodes, outbox[|old(outbox)|..])
      ensures Handled(old(Book()), requestSeq, now, Book())
    {
      hide Session.Ready, Tree.Valid, Tree.Snap, Survivors, Text, Failed, Handled, Unanswered, CopiesOf,
           ChangeEffect, KeepingToo, Octets,
           Below;
      if r.Err? {
        var denied := r.error == Denied;
        RespondError(requestSeq, if denied then Text("PermissionDenied") else code, w.setText(r.error), now);
        ChangeFailed(w, Setup(), requestSeq, code, nextSeq, changed, st, StateOf(tree), queryResultNodes, outbox[|old(outbox)|..]);
        return;
      }
      var _ := Reap();
      var nodes := Snapshot(r.value);
      RespondAndCache(Response(0, requestSeq, false, None, nodes), now);
      assert outbox[|old(outbox)|..] == [Response(nextSeq, requestSeq, false, None, nodes)];
      ChangeDone(w, Setup(), requestSeq, code, nextSeq, changed, st, StateOf(tree), old(queryResultNodes), queryResultNodes,
                 outbox[|old(outbox)|..]);
    }

    method HandleSet(w: World, s: Set, now: nat)
      requires Valid() && nextSeq < MAX_INT64 && cache.clock <= now && s.sequenceNumber >= 0
      requires s.sequenceNumber in executed && s.sequenceNumber !in queried && Unanswered(Book(), s.sequenceNumber)
      modifies `nextSeq, `outbox, `activeQueries, `queryResultNodes, sender, cache, tree, tree.nodes
      ensures Ready() && fresh(tree.nodes - old(tree.nodes)) && cache.clock <= now && nextSeq == old(nextSeq) + 1
      ensures Inv(old(tree.Snap()), tree.root)
      ensures Inv(TreePlan.SetAs(w.env, old(tree.Snap()), tree.root, newNodes, auth, s.edits).0, tree.root) ==> Valid()
      ensures old(outbox) <= outbox
      ensures SetEffect(w, Setup(), s, nextSeq, old(StateOf(tree)), StateOf(tree), old(queryResultNodes), queryResultNodes,
                        outbox[|old(outbox)|..])
      ensures Handled(old(Book()), s.sequenceNumber, now, Book())
    {
      hide BookOk, Tree.Snap, Tree.Valid, ReplyCache.Valid, InStep, AllApart, TreePlan.SetAs, Inv, IdsOk, ChangeEffect,
           Handled, Unanswered, Text;
      tree.Sound();
      ghost var st := StateOf(tree);
      SetReportsKnown(w.env, st.s, tree.root, newNodes, auth, s.edits);
      SetStaysApart(w.env, st.s, tree.root, newNodes, auth, s.edits, queryResults, queryResultNodes);
      var r := SetRequest(tree, w.env, newNodes, auth, s.edits);
      AnswerChange(w, s.sequenceNumber, r, Text("InvalidSet"), now,
                   TreePlan.SetAs(w.env, st.s, tree.root, newNodes, auth, s.edits), st);
    }

    method HandleDelete(w: World, d: Delete, now: nat)
      requires Valid() && nextSeq < MAX_INT64 && cache.clock <= now && d.sequenceNumber >= 0
      requires d.sequenceNumber in executed && d.sequenceNumber !in queried && Unanswered(Book(), d.sequenceNumber)
      modifies `nextSeq, `outbox, `activeQueries, `queryResultNodes, sender, cache, tree, tree.nodes
      ensures Valid() && fresh(tree.nodes - old(tree.nodes)) && cache.clock <= now && nextSeq == old(nextSeq) + 1
      ensures old(outbox) <= outbox
      ensures DeleteEffect(w, Setup(), d, nextSeq, old(StateOf(tree)), StateOf(tree), old(queryResultNodes), queryResultNodes,
                           outbox[|old(outbox)|..])
      ensures Handled(old(Book()), d.sequenceNumber, now, Book())
    {
      hide BookOk, Tree.Snap, Tree.Valid, ReplyCache.Valid, InStep, AllApart, TreeDelete.DeleteAs, Inv, IdsOk,
           ChangeEffect, Handled, Unanswered, Text;
      tree.Sound();
      ghost var st := StateOf(tree);
      DeleteReportsKnown(w.env, st.s, tree.root, auth, d.targets);
      DeleteStaysApart(w.env, st.s, tree.root, auth, d.targets, newNodes, queryResults, queryResultNodes);
      var r := DeleteRequest(tree, w.env, auth, d.targets);
      AnswerChange(w, d.sequenceNumber, r, Text("InvalidDelete"), now,
                   TreeDelete.DeleteAs(w.env, st.s, tree.root, auth, d.targets), st);
    }

    /** The new node itself, where the parent expression leads. */
    method CreateNode(w: World, parentExpr: Bytes, key: Bytes, value: NodeValue) returns (r: Result<Node, SetError>)
      requires Valid()
      modifies tree, tree.nodes
      ensures Valid() && fresh(tree.nodes - old(tree.nodes)) && Inv(old(tree.Snap()), tree.root)
      ensures match CreateParent(w.env, old(tree.Snap()), tree.root, auth, newNodes, parentExpr)
              case Err(e) => r == Err(e) && StateOf(tree) == old(StateOf(tree))
              case Ok(parent) =>
                && r.Ok? && Created(old(StateOf(tree)), StateOf(tree), parent, key, value)
                && r.value in tree.nodes && r.value.key == key && r.value.value == value
    {
      hide BookOk, Tree.Snap, Tree.Valid, ReplyCache.Valid, InStep, AllApart, CreateParent, TreeGrow.AppendUnder;
      hide Inv, IdsOk, Created;
      tree.Sound();
      ghost var st := StateOf(tree);
      r := CreateStagedAs(tree, w.env, newNodes, parentExpr, key, value, auth);
      InStepGrows(activeQueries, queryResultNodes, old(tree.nodes), tree.nodes);
      if r.Ok? {
        ghost var parent := CreateParent(w.env, old(tree.Snap()), tree.root, auth, newNodes, parentExpr).value;
        CreatedOne(st, parent, r.value, value);
        NewNodeValue(st, parent, r.value, value);
        tree.Fields(r.value);
        AppendedSameParents(st, parent, r.value, value);
        StaysApart(st.s, tree.Snap(), newNodes, queryResults, queryResultNodes);
      }
    }

    method HandleCreate(w: World, c: Create, now: nat)
      requires Valid() && nextSeq < MAX_INT64 && cache.clock <= now && c.sequenceNumber >= 0
      requires c.sequenceNumber in executed && c.sequenceNumber !in queried && Unanswered(Book(), c.sequenceNumber)
      modifies `nextSeq, `outbox, sender, cache, tree, tree.nodes
      ensures Valid() && fresh(tree.nodes - old(tree.nodes)) && cache.clock <= now && nextSeq == old(nextSeq) + 1
      ensures old(outbox) <= outbox
      ensures CreateEffect(w, Setup(), c, nextSeq, old(StateOf(tree)), StateOf(tree), outbox[|old(outbox)|..])
      ensures Handled(old(Book()), c.sequenceNumber, now, Book())
    {
      hide Session.Ready, Tree.Valid, Tree.Snap, CreateParent, Inv, Created, Failed, Handled, Unanswered, Text, CopiesOf,
           CreateEffect, KeepingToo, Octets;
      ghost var st := StateOf(tree);
      var value := ValueOr(c.value);
      var parentExpr := if c.parent.Some? then c.parent.value else [];
      var r := CreateNode(w, parentExpr, c.key, value);
      if r.Err? {
        RespondError(c.sequenceNumber, Text("InvalidCreate"), w.setText(r.error), now);
        CreateFailed(w, Setup(), c, r.error, nextSeq, st, StateOf(tree), outbox[|old(outbox)|..]);
        return;
      }
      var nodes := Snapshot([r.value]);
      tree.Fields(r.value);
      OneCopy(tree.Snap(), r.value);
      RespondAndCache(Response(0, c.sequenceNumber, false, None, nodes), now);
      assert outbox[|old(outbox)|..] == [Response(nextSeq, c.sequenceNumber, false, None, nodes)];
      CreateDone(w, Setup(), c, CreateParent(w.env, st.s, tree.root, auth, newNodes, parentExpr).value, nextSeq, st,
                 StateOf(tree), outbox[|old(outbox)|..]);
    }

    // --- Query --------------------------------------------------------------------------------------

    /** The entries as a subtree under the query's results node, and as the array it reads as. */
    method AppendResults(resultsNode: Node, key: Bytes, entries: seq<Entry>) returns (flat: seq<WireNode>)
      requires Valid() && resultsNode in tree.nodes && |entries| < MAX_INT64
      modifies tree, tree.nodes
      ensures Valid() && fresh(tree.nodes - old(tree.nodes)) && old(tree.nodes) <= tree.nodes
      ensures Size([TransferRose(key, entries)]) <= MAX_INT64 && flat == Flat([TransferRose(key, entries)])
      ensures exists top :: top in tree.Snap() && TransferredTo(old(StateOf(tree)), StateOf(tree), resultsNode, key, entries, top)
    {
      hide BookOk, Tree.Snap, Tree.Valid, ReplyCache.Valid, InStep, AllApart, Flat, Size, EntryRoses,
           TreeGrow.AppendLeafSubtree, NoDup, TransferredTo;
      ghost var st := StateOf(tree);
      ghost var top: Node, leaves: seq<Node>;
      flat, top, leaves := TreeGetMethods.AppendLeafSubtree(tree, resultsNode, key, entries);
      InStepGrows(activeQueries, queryResultNodes, old(tree.nodes), tree.nodes);
      SubtreeAdded(st, StateOf(tree), resultsNode, key, entries, top, leaves);
      SubtreeSameParents(st, resultsNode, top, leaves, EntryValues(entries));
      StaysApart(st.s, tree.Snap(), newNodes, queryResults, queryResultNodes);
    }

    /** One transfer: the entries become a subtree under the query's results node, and that is pushed. */
    method PushResults(querySeq: int64, resultsNode: Node, key: Bytes, entries: seq<Entry>, now: nat)
      requires Valid() && nextSeq < MAX_INT64 && cache.clock <= now && resultsNode in tree.nodes && querySeq >= 0
      requires querySeq in queried && querySeq in executed && |entries| < MAX_INT64
      modifies `nextSeq, `outbox, sender, cache, tree, tree.nodes
      ensures Valid() && fresh(tree.nodes - old(tree.nodes)) && old(tree.nodes) <= tree.nodes && cache.clock <= now
      ensures nextSeq == old(nextSeq) + (if entries == [] then 0 else 1)
      ensures cache.entries == old(cache.entries) && (Unanswered(old(Book()), querySeq) ==> Unanswered(Book(), querySeq))
      ensures Pushed(old(Book()), querySeq, now, Book())
      ensures Book() == PostAll(old(Book()), outbox[|old(outbox)|..], now).(next := nextSeq)
      ensures old(outbox) <= outbox
      ensures Transferred(Setup(), querySeq, resultsNode, key, entries, nextSeq, old(StateOf(tree)), StateOf(tree),
                          outbox[|old(outbox)|..])
    {
      hide Session.Ready, Tree.Valid, Pushed, Tree.Snap, Flat, Size, TransferRose, TransferredTo, ToSend, Unanswered,
           Text, Transferred, Octets, PostAll, KeepingToo;
      ghost var book := Book();
      ghost var st := StateOf(tree);
      if |entries| == 0 {
        assert outbox[|old(outbox)|..] == [];
        NothingPushed(book, querySeq, now);
        NothingPosted(book, now);
        NothingTransferred(Setup(), querySeq, resultsNode, key, nextSeq, st);
        return;
      }
      var flat := AppendResults(resultsNode, key, entries);
      RoseHasNodes(TransferRose(key, entries));
      var path := Text("/Sessions/Connection-ID\\=") + id + Text("/QueryResults/Query-SequenceNumber\\=") + Decimal(querySeq);
      var sent := SendFitted(querySeq, flat, 0, path + [SLASH] + key, false, now);
      assert outbox[|old(outbox)|..] == Carrying(nextSeq, querySeq, sent);
      TransferDone(Setup(), querySeq, resultsNode, key, entries, nextSeq, st, StateOf(tree), outbox[|old(outbox)|..]);
    }

    /** The query's own results node, and its entry in both maps. */
    method RegisterQuery(querySeq: int64) returns (resultsNode: Node)
      requires Valid() && querySeq >= 0 && querySeq in executed && querySeq !in queried && Unanswered(Book(), querySeq)
      modifies `activeQueries, `queryResultNodes, `queried, tree, tree.nodes
      ensures Valid() && fresh(tree.nodes - old(tree.nodes)) && old(tree.nodes) <= tree.nodes && resultsNode in tree.nodes
      ensures queried == old(queried) + {querySeq} && Book() == old(Book()).(queried := queried)
      ensures queryResultNodes == old(queryResultNodes)[querySeq := resultsNode]
      ensures Unanswered(Book(), querySeq)
      ensures Registered(Setup(), querySeq, resultsNode, old(StateOf(tree)), StateOf(tree))
    {
      hide BookOk, Tree.Snap, Tree.Valid, ReplyCache.Valid, TreeGrow.AppendUnder, Text, InStep, Unanswered, Decimal,
           Apart;
      ghost var st := StateOf(tree);
      resultsNode := Append(queryResults, Text("Query-SequenceNumber=") + Decimal(querySeq), NoValue);
      NewNodeApart(st, newNodes, queryResults, resultsNode, NoValue);
      Activate(querySeq, resultsNode);
    }

    /** A query's place in both maps. */
    method Activate(querySeq: int64, resultsNode: Node)
      requires Valid() && querySeq in executed && querySeq !in queried && Unanswered(Book(), querySeq)
      requires resultsNode in tree.nodes && Apart(tree.Snap(), newNodes, resultsNode)
      modifies `activeQueries, `queryResultNodes, `queried
      ensures Valid() && Unanswered(Book(), querySeq)
      ensures queried == old(queried) + {querySeq} && Book() == old(Book()).(queried := queried)
      ensures queryResultNodes == old(queryResultNodes)[querySeq := resultsNode]
    {
      hide BookOk, Tree.Snap, Tree.Valid, ReplyCache.Valid, InStep, Unanswered, Apart;
      RegisterKeepsBook(Book(), querySeq);
      var runner := new Runner();
      InStepAdds(activeQueries, queryResultNodes, tree.nodes, tree.nodes, querySeq, runner, resultsNode);
      activeQueries := activeQueries[querySeq := runner];
      queryResultNodes := queryResultNodes[querySeq := resultsNode];
      queried := queried + {querySeq};
    }

    method ForgetQuery(querySeq: int64)
      requires Valid()
      modifies `activeQueries, `queryResultNodes
      ensures Valid()
      ensures activeQueries == old(activeQueries) - {querySeq} && queryResultNodes == old(queryResultNodes) - {querySeq}
    {
      hide BookOk, Tree.Valid, ReplyCache.Valid, Apart;
      activeQueries := activeQueries - {querySeq};
      queryResultNodes := queryResultNodes - {querySeq};
    }

    /**
     * handleQuery: the query gets its results node and its place among the active ones; a
     * ONCE query delivers once and is forgotten again. once holds the entries of that
     * delivery, and key its timestamp.
     */
    method HandleQuery(w: World, q: Query, once: seq<Entry>, key: Bytes, now: nat)
      requires Valid() && nextSeq < MAX_INT64 - 1 && cache.clock <= now && |once| < MAX_INT64 && q.sequenceNumber >= 0
      requires q.sequenceNumber in executed && q.sequenceNumber !in queried && Unanswered(Book(), q.sequenceNumber)
      modifies `nextSeq, `outbox, `activeQueries, `queryResultNodes, `queried, sender, cache, tree, tree.nodes
      ensures Valid() && fresh(tree.nodes - old(tree.nodes)) && cache.clock <= now && nextSeq <= old(nextSeq) + 2
      ensures old(outbox) <= outbox
      ensures QueryEffect(w, Setup(), q, once, key, old(nextSeq) + 1, old(StateOf(tree)), StateOf(tree),
                          old(queryResultNodes), queryResultNodes, outbox[|old(outbox)|..])
      ensures Handled(old(Book()), q.sequenceNumber, now, Book())
    {
      hide Session.Ready, Tree.Valid, Tree.Snap, ValidQuery, Text, Failed, Handled, Unanswered, QueryAccepted;
      if !ValidQuery(q) {
        RespondError(q.sequenceNumber, Text("InvalidQuery"), w.queryText(q), now);
        return;
      }
      ghost var n := AcceptQuery(q, once, key, now);
    }

    method AcceptQuery(q: Query, once: seq<Entry>, key: Bytes, now: nat) returns (ghost n: Node)
      requires Valid() && nextSeq < MAX_INT64 - 1 && cache.clock <= now && |once| < MAX_INT64 && q.sequenceNumber >= 0
      requires q.sequenceNumber in executed && q.sequenceNumber !in queried && Unanswered(Book(), q.sequenceNumber)
      requires ValidQuery(q)
      modifies `nextSeq, `outbox, `activeQueries, `queryResultNodes, `queried, sender, cache, tree, tree.nodes
      ensures Valid() && fresh(tree.nodes - old(tree.nodes)) && cache.clock <= now && nextSeq <= old(nextSeq) + 2
      ensures old(outbox) <= outbox
      ensures n in tree.Snap() && QueryAccepted(Setup(), q, once, key, old(nextSeq) + 1, old(StateOf(tree)), StateOf(tree),
                                                old(queryResultNodes), queryResultNodes, outbox[|old(outbox)|..], n)
      ensures Handled(old(Book()), q.sequenceNumber, now, Book())
    {
      hide Session.Ready, Tree.Valid, Tree.Snap, Text, Handled, Unanswered, Registered, Transferred, QueryAccepted,
           ValidQuery,
           KeepingToo, Octets, PostAll, Ascends, SameReply;
      var k := q.sequenceNumber;
      ghost var f, st, results, book := Setup(), StateOf(tree), queryResultNodes, Book();
      ghost var one: TreeGrow.State;
      var resultsNode;
      resultsNode, one := StartQuery(q, once, key, now);
      n := resultsNode;
      ghost var pushes, mid := outbox[|book.outbox|..], Book();
      RespondAndCache(Response(0, k, false, None, []), now);
      assert outbox[|book.outbox|..] == pushes + [Registration(nextSeq, k)];
      QueryDone(f, q, once, key, now, book, mid, Book(), st, one, StateOf(tree), results, queryResultNodes, pushes, n);
    }

    /** Up to the acknowledgement. */
    method StartQuery(q: Query, once: seq<Entry>, key: Bytes, now: nat)
      returns (resultsNode: Node, ghost one: TreeGrow.State)
      requires Valid() && nextSeq < MAX_INT64 && cache.clock <= now && |once| < MAX_INT64 && q.sequenceNumber >= 0
      requires q.sequenceNumber in executed && q.sequenceNumber !in queried && Unanswered(Book(), q.sequenceNumber)
      modifies `nextSeq, `outbox, `activeQueries, `queryResultNodes, `queried, sender, cache, tree, tree.nodes
      ensures Valid() && fresh(tree.nodes - old(tree.nodes)) && cache.clock <= now && resultsNode in tree.nodes
      ensures nextSeq == old(nextSeq) + (if q.collectionMode.CollectOnce? && once != [] then 1 else 0)
      ensures old(outbox) <= outbox && cache.entries == old(cache.entries) && queried == old(queried) + {q.sequenceNumber}
      ensures Unanswered(Book(), q.sequenceNumber)
      ensures Book() == PostAll(old(Book()), outbox[|old(outbox)|..], now)
                          .(queried := old(queried) + {q.sequenceNumber}, next := nextSeq)
      ensures Registered(Setup(), q.sequenceNumber, resultsNode, old(StateOf(tree)), one)
      ensures if q.collectionMode.CollectOnce? then
                && queryResultNodes == old(queryResultNodes)[q.sequenceNumber := resultsNode] - {q.sequenceNumber}
                && Transferred(Setup(), q.sequenceNumber, resultsNode, key, once, nextSeq, one, StateOf(tree), outbox[|old(outbox)|..])
              else
                && queryResultNodes == old(queryResultNodes)[q.sequenceNumber := resultsNode]
                && StateOf(tree) == one && outbox == old(outbox)
    {
      hide Session.Ready, Tree.Valid, Session.Setup, Tree.Snap, Unanswered, Registered, Transferred, Pushed, Octets,
           PostAll;
      ghost var book := Book();
      resultsNode := RegisterQuery(q.sequenceNumber);
      one := StateOf(tree);
      if q.collectionMode.CollectOnce? {
        RunOnce(q.sequenceNumber, resultsNode, key, once, now);
      } else {
        assert outbox[|book.outbox|..] == [];
        NothingPosted(Book(), now);
      }
      PostAllQueried(book, outbox[|book.outbox|..], now, queried);
    }

    /** A ONCE query's whole pipeline, after which nothing is left to keep track of. */
    method RunOnce(querySeq: int64, resultsNode: Node, key: Bytes, once: seq<Entry>, now: nat)
      requires Valid() && nextSeq < MAX_INT64 && cache.clock <= now && resultsNode in tree.nodes && querySeq >= 0
      requires querySeq in queried && querySeq in executed && |once| < MAX_INT64 && Unanswered(Book(), querySeq)
      modifies `nextSeq, `outbox, `activeQueries, `queryResultNodes, sender, cache, tree, tree.nodes
      ensures Valid() && fresh(tree.nodes - old(tree.nodes)) && old(tree.nodes) <= tree.nodes && cache.clock <= now
      ensures nextSeq == old(nextSeq) + (if once == [] then 0 else 1)
      ensures cache.entries == old(cache.entries) && Unanswered(Book(), querySeq)
      ensures old(outbox) <= outbox && queryResultNodes == old(queryResultNodes) - {querySeq}
      ensures Book() == PostAll(old(Book()), outbox[|old(outbox)|..], now).(next := nextSeq)
      ensures Transferred(Setup(), querySeq, resultsNode, key, once, nextSeq, old(StateOf(tree)), StateOf(tree),
                          outbox[|old(outbox)|..])
    {
      hide Session.Ready, Tree.Valid, Session.Setup, Tree.Snap, Unanswered, Transferred, Pushed, Octets, PostAll;
      PushResults(querySeq, resultsNode, key, once, now);
      ForgetQuery(querySeq);
    }

    // --- dispatch ------------------------------------------------------------------------------------

    /** The reply kept for a request, once more. */
    method Resend(s: int64, now: nat)
      requires Ready() && nextSeq < MAX_INT64 && s in cache.entries
      modifies `nextSeq, `outbox, sender
      ensures Ready() && nextSeq == old(nextSeq) + 1
      ensures Repeated(old(Book()), s, now, Book())
    {
      hide BookOk, ReplyCache.Valid, InStep, AllApart, Octets;
      ghost var book := Book();
      SendResponse(cache.entries[s].response, now);
      RepeatedKeepsBook(book, s, now, Book());
    }

    /** The sender's timer. */
    method Retransmit(now: nat) returns (toResend: map<int64, Bytes>, toGiveUp: set<int64>)
      requires Ready()
      modifies sender
      ensures Ready()
      ensures SessionBook.Step(old(Book()), Ticks(now, sender.retransmitInterval, sender.maxAttempts), Book())
    {
      hide BookOk, ReplyCache.Valid, InStep, AllApart, Sender.Tick;
      ghost var book := Book();
      toResend, toGiveUp := sender.RetransmitDue(now);
      StepKeepsBook(book, Ticks(now, sender.retransmitInterval, sender.maxAttempts), Book());
    }

    /** What a Get needs beforehand: offsets that fit an integer. */
    ghost predicate Fetchable(w: World, m: Message)
      reads tree, tree.nodes
    {
      m.MsgGet? && m.get.target.AbsolutePointer? ==>
        && Inv(tree.Snap(), tree.root)
        && Addressable(w.env, tree.Snap(), tree.root, auth, SplitResumeSuffix(m.get.target.expr).0)
    }

    /** Only a Set can leave the tree outside its invariant. */
    ghost predicate Keeps(w: World, m: Message)
      reads tree, tree.nodes
    {
      m.MsgSet? ==>
        && Inv(tree.Snap(), tree.root)
        && Inv(TreePlan.SetAs(w.env, tree.Snap(), tree.root, newNodes, auth, m.set_.edits).0, tree.root)
    }

    /** A request not seen before, executed. */
    method Execute(w: World, m: Message, once: seq<Entry>, key: Bytes, now: nat, ghost s: int64)
      requires Valid() && nextSeq < MAX_INT64 - 1 && cache.clock <= now && |once| < MAX_INT64 && Fetchable(w, m)
      requires RequestSeq(m) == Some(s) && s >= 0 && s in executed && s !in queried && Unanswered(Book(), s)
      modifies `nextSeq, `outbox, `activeQueries, `queryResultNodes, `queried, sender, cache, tree, tree.nodes
      ensures old(outbox) <= outbox
      ensures Executed(w, Setup(), m, once, key, old(nextSeq) + 1, old(StateOf(tree)), StateOf(tree),
                       old(queryResultNodes), queryResultNodes, outbox[|old(outbox)|..])
      ensures Handled(old(Book()), s, now, Book())
      ensures Ready() && (old(Keeps(w, m)) ==> Valid()) && fresh(tree.nodes - old(tree.nodes)) && cache.clock <= now
    {
      hide Session.Ready, Tree.Valid, Tree.Snap, Inv, Addressable, ValidQuery, Handled, Unanswered, Text, BookOk;
      hide TreePlan.SetAs, TreeDelete.DeleteAs, GetEffect, SetEffect, DeleteEffect, CreateEffect, QueryEffect;
      Known();
      match m {
        case MsgGet(g) => HandleGet(w, g, now);
        case MsgSet(e) => HandleSet(w, e, now);
        case MsgCreate(c) => HandleCreate(w, c, now);
        case MsgDelete(d) => HandleDelete(w, d, now);
        case MsgQuery(q) => HandleQuery(w, q, once, key, now);
      }
    }

    /** The dedup check: a number is new at most once. */
    method Admit(s: int64) returns (isNew: bool)
      requires Ready()
      modifies `executed, `history, receiver
      ensures Ready()
      ensures BookOk(old(Book())) && isNew == Receiver.Marked(old(receiver.State()), s).1
      ensures isNew <==> s >= 1 && !Receiver.Seen(old(receiver.State()), s)
      ensures Book() == if isNew then Admitted(old(Book()), s) else old(Book())
      ensures isNew ==> s !in old(executed) && s !in queried && Unanswered(Book(), s)
    {
      hide BookOk, ReplyCache.Valid, InStep, AllApart, Receiver.Marked, Receiver.Seen, Receiver.Abandoned, Unanswered;
      ghost var book := Book();
      BookValid(book);
      Receiver.MarkRefinesSet(receiver.State(), s);
      isNew := receiver.MarkReceived(s);
      if isNew {
        executed := executed + {s};
        history := history + [s];
        AdmitKeepsBook(book, s);
      } else {
        NotNewKeeps(book.recv, s);
      }
    }

    /**
     * handleMessage. A request is executed once and never again; a retransmission of it
     * changes nothing, and is sent the reply first sent to it, if that is still kept.
     */
    method HandleMessage(w: World, m: Message, once: seq<Entry>, key: Bytes, now: nat)
      requires Ready() && nextSeq < MAX_INT64 - 1 && cache.clock <= now && |once| < MAX_INT64
      requires IsNew(m) ==> tree.Valid() && Fetchable(w, m)
      modifies this, receiver, sender, cache, tree, tree.nodes
      ensures SessionBook.Step(old(Book()), Arrives(m, now), Book())
      ensures RequestSeq(m).None? ==>
                && outbox == old(outbox) && StateOf(tree) == old(StateOf(tree)) && queryResultNodes == old(queryResultNodes)
                && (m.MsgSummaryAck? ==> sender.pending == Sender.Acknowledge(old(sender.pending), m.ack))
      ensures RequestSeq(m).Some? ==>
                var s := RequestSeq(m).value;
                if old(IsNew(m)) then
                  && s !in old(executed) && executed == old(executed) + {s} && history == old(history) + [s]
                  && old(outbox) <= outbox
                  && Executed(w, Setup(), m, once, key, old(nextSeq) + 1, old(StateOf(tree)), StateOf(tree),
                              old(queryResultNodes), queryResultNodes, outbox[|old(outbox)|..])
                else
                  && executed == old(executed) && history == old(history) && cache.entries == old(cache.entries)
                  && StateOf(tree) == old(StateOf(tree)) && queryResultNodes == old(queryResultNodes)
                  && SentAgain(old(outbox), outbox, s, s in queried, s in cache.entries)
      ensures Ready() && fresh(tree.nodes - old(tree.nodes)) && cache.clock <= now
      ensures old(tree.Valid()) && old(IsNew(m) ==> Keeps(w, m)) ==> Valid()
    {
      hide Session.Ready, Tree.Valid, Tree.Snap, Receiver.Seen, Receiver.Marked, Fetchable, Keeps, Executed, Inv, BookOk,
           SentAgain, Handled, Unanswered, Octets, Session.Setup, Sender.Acknowledge;
      ghost var book := Book();
      var s := RequestSeq(m);
      if s.None? {
        if m.MsgSummaryAck? {
          Acknowledged(m.ack);
        }
        return;
      }
      var isNew := Admit(s.value);
      if isNew {
        Execute(w, m, once, key, now, s.value);
      } else if s.value in cache.entries {
        Resend(s.value, now);
        RepeatedKeepsBook(book, s.value, now, Book());
      } else {
        NothingRepeated(book, s.value, now);
      }
    }

    /** A request that has not been seen. */
    ghost predicate IsNew(m: Message)
      reads receiver
    {
      RequestSeq(m).Some? && RequestSeq(m).value >= 1 && !Receiver.Seen(receiver.State(), RequestSeq(m).value)
    }

    /** A SummaryAck. */
    method Acknowledged(ack: SummaryAck)
      requires Ready()
      modifies sender
      ensures Ready() && sender.pending == Sender.Acknowledge(old(sender.pending), ack)
    {
      hide BookOk, ReplyCache.Valid, InStep, AllApart, Receiver.Covers;
      ghost var book := Book();
      sender.HandleAck(ack);
      TableKeepsBook(book, Sender.Acknowledge(book.pending, ack));
    }
  }

  lemma RoseHasNodes(r: Rose)
    ensures Size([r]) > 0
  {
  }

  lemma OneCopy(s: Snap, n: Node)
    ensures CopiesOf(s, [n]) == [WireNode(n.key, ValueOf(s, n), OffsetPointer(0), OffsetPointer(0))]
  {
  }

  lemma SameButForNumber(resp: Response, n: int64)
    ensures SameReply(resp.(sequenceNumber := n), resp)
  {
  }

  lemma SameAsItself(resp: Response)
    ensures SameReply(resp, resp)
  {
  }

  lemma NewNodeValue(st: TreeGrow.State, parent: Node, n: Node, value: NodeValue)
    requires parent in st.s && n !in st.s
    ensures n in TreeGrow.AppendUnder(st, parent, n, value).s && ValueOf(TreeGrow.AppendUnder(st, parent, n, value).s, n) == value
  {
    hide Appended;
    AppendedFields(st.s, parent, n, value, st.last + 1);
  }

  lemma NotNewKeeps(r: Receiver.Recv, s: int64)
    requires Receiver.Valid(r) && !Receiver.Marked(r, s).1
    ensures Receiver.Marked(r, s).0 == r
  {
  }

  /** A used-up number is no answer. */
  lemma NextUnanswered(b: Book, s: int64, now: nat, next: int64)
    requires b.next <= next
    ensures s in b.queried ==> Pushed(b, s, now, b.(next := next))
    ensures Unanswered(b, s) ==> Unanswered(b.(next := next), s)
  {
  }

  lemma NothingPushed(b: Book, s: int64, now: nat)
    requires s in b.queried
    ensures Pushed(b, s, now, b)
  {
  }

  lemma NothingPosted(b: Book, now: nat)
    ensures PostAll(b, [], now) == b
  {
  }

  lemma OnePosted(b: Book, r: Response, now: nat)
    ensures PostAll(b, [r], now) == SessionBook.Post(b, r, now)
  {
    PostAllSnoc(b, [], r, now);
    assert [] + [r] == [r];
  }

  /** One push at most, with the number before the acknowledgement's. */
  lemma PushesAscend(pushes: seq<Response>, s: int64, lo: int, hi: int)
    requires lo <= hi && |pushes| <= 1 && (pushes != [] ==> lo < pushes[0].sequenceNumber <= hi)
    ensures Ascends(pushes, lo, hi)
  {
  }

  lemma NothingRepeated(b: Book, s: int64, now: nat)
    requires s !in b.entries
    ensures Repeated(b, s, now, b) && SentAgain(b.outbox, b.outbox, s, s in b.queried, false)
  {
  }

  /** The subtree that a transfer appends is under the results node, and its leaves are its entries. */
  lemma SubtreeAdded(st: TreeGrow.State, t: TreeGrow.State, resultsNode: Node, key: Bytes, entries: seq<Entry>,
                     top: Node, leaves: seq<Node>)
    requires resultsNode in st.s && top !in st.s && top.key == key && |leaves| == |entries| && NoDup([top] + leaves)
    requires forall i :: 0 <= i < |leaves| ==> leaves[i] !in st.s && leaves[i].key == entries[i].0
    requires t == TreeGrow.AppendLeafSubtree(st, resultsNode, top, leaves, EntryValues(entries))
    ensures top in t.s && TransferredTo(st, t, resultsNode, key, entries, top)
  {
    hide Appended, EntryValues, AppendLeaves, HasLeaves, NoDup;
    var one := TreeGrow.AppendUnder(st, resultsNode, top, NoValue);
    AppendedFields(st.s, resultsNode, top, NoValue, st.last + 1);
    NoDupCons(top, leaves);
    forall n | n in leaves
      ensures n !in one.s
    {
    }
    LeavesFields(one, top, top, leaves, EntryValues(entries));
    ChildrenAreLeaves(one.s, t.s, top, leaves, EntryValues(entries));
  }

  lemma ChildrenAreLeaves(s: Snap, t: Snap, top: Node, leaves: seq<Node>, values: seq<NodeValue>)
    requires |values| == |leaves| && top in s && s[top].children == [] && HasLeaves(s, t, top, leaves, values)
    ensures top in t && KidsOf(t, top) == leaves
  {
    assert [] + leaves == leaves;
  }

  lemma OnceAccepted(f: Setup, q: Query, once: seq<Entry>, key: Bytes, tx: int64, used: int64, st: TreeGrow.State,
                     one: TreeGrow.State,
                     t: TreeGrow.State, results: map<int64, Node>, results': map<int64, Node>, pushes: seq<Response>,
                     sent: seq<Response>, n: Node)
    requires ValidQuery(q) && q.collectionMode.CollectOnce? && tx < MAX_INT64 && n in t.s
    requires Registered(f, q.sequenceNumber, n, st, one)
    requires results' == results[q.sequenceNumber := n] - {q.sequenceNumber}
    requires Transferred(f, q.sequenceNumber, n, key, once, used, one, t, pushes) && (once != [] ==> used == tx)
    requires sent == pushes + [Registration(if once == [] then tx else tx + 1, q.sequenceNumber)]
    ensures QueryAccepted(f, q, once, key, tx, st, t, results, results', sent, n)
  {
    hide ValidQuery, TreeGrow.AppendUnder, Text, TransferredTo, ToSend, EntryRoses, Flat, Size;
    assert sent[..|sent| - 1] == pushes;
  }

  lemma RunningAccepted(f: Setup, q: Query, once: seq<Entry>, key: Bytes, tx: int64, st: TreeGrow.State,
                        t: TreeGrow.State,
                        results: map<int64, Node>, results': map<int64, Node>, sent: seq<Response>, n: Node)
    requires ValidQuery(q) && !q.collectionMode.CollectOnce? && n in t.s && Registered(f, q.sequenceNumber, n, st, t)
    requires results' == results[q.sequenceNumber := n] && sent == [Registration(tx, q.sequenceNumber)]
    ensures QueryAccepted(f, q, once, key, tx, st, t, results, results', sent, n)
  {
    hide ValidQuery, TreeGrow.AppendUnder, Text, Transferred;
  }

  /** A query accepted and acknowledged, as an effect and in the book. */
  lemma QueryDone(f: Setup, q: Query, once: seq<Entry>, key: Bytes, now: nat, book: Book, mid: Book, book': Book,
                  st: TreeGrow.State, one: TreeGrow.State, t: TreeGrow.State, results: map<int64, Node>,
                  results': map<int64, Node>, pushes: seq<Response>, n: Node)
    requires ValidQuery(q) && n in t.s && book.next < MAX_INT64 - 1 && Registered(f, q.sequenceNumber, n, st, one)
    requires mid == PostAll(book, pushes, now).(queried := book.queried + {q.sequenceNumber}, next := mid.next)
    requires mid.next == book.next + (if q.collectionMode.CollectOnce? && once != [] then 1 else 0)
    requires if q.collectionMode.CollectOnce? then
               && results' == results[q.sequenceNumber := n] - {q.sequenceNumber}
               && Transferred(f, q.sequenceNumber, n, key, once, mid.next, one, t, pushes)
             else results' == results[q.sequenceNumber := n] && t == one && pushes == []
    requires book' == SessionBook.Post(mid, Registration(mid.next + 1, q.sequenceNumber), now)
                        .(entries := KeepingToo(mid.entries, q.sequenceNumber, Response(0, q.sequenceNumber, false, None, []), now),
                          clock := now)
    ensures QueryAccepted(f, q, once, key, book.next + 1, st, t, results, results',
                          pushes + [Registration(mid.next + 1, q.sequenceNumber)], n)
    ensures Handled(book, q.sequenceNumber, now, book')
  {
    hide ValidQuery, Registered, Transferred, QueryAccepted, Handled, KeepingToo, Octets, PostAll, Ascends;
    var k := q.sequenceNumber;
    var sent := pushes + [Registration(mid.next + 1, k)];
    if q.collectionMode.CollectOnce? {
      OnceAccepted(f, q, once, key, book.next + 1, mid.next, st, one, t, results, results', pushes, sent, n);
      TransferPushes(f, k, n, key, once, mid.next, one, t, pushes);
    } else {
      RunningAccepted(f, q, once, key, book.next + 1, st, t, results, results', sent, n);
    }
    PushesAscend(pushes, k, book.next, mid.next);
    QueryHandled(book, k, pushes, now, mid, Registration(mid.next + 1, k), Response(0, k, false, None, []), book');
  }

  /** What a transfer pushes goes to its query and carries nodes. */
  lemma TransferPushes(f: Setup, querySeq: int64, n: Node, key: Bytes, entries: seq<Entry>, tx: int64,
                       st: TreeGrow.State, t: TreeGrow.State, pushes: seq<Response>)
    requires Transferred(f, querySeq, n, key, entries, tx, st, t, pushes)
    ensures |pushes| <= 1 && (pushes != [] ==> entries != [])
    ensures forall i :: 0 <= i < |pushes| ==>
              pushes[i].inReplyTo == querySeq && pushes[i].nodes != [] && pushes[i].sequenceNumber == tx
  {
    hide TransferredTo, Text, EntryRoses, Delivered;
  }

  // --- sampling --------------------------------------------------------------------------------------

  /** What SampleAs copies from a node: its id as text, its key and its value. */
  ghost function SampleOf(s: Snap, n: Node): Sample {
    Sample(Decimal(if n in s then s[n].id else 0), n.key, ValueOf(s, n))
  }

  /** SampleAs: one sample for each node matched. */
  method SampleTree(t: Tree, env: Engine, expression: Bytes, auth: Option<Checker>)
    returns (r: Result<seq<Sample>, ExprError>)
    requires t.Valid()
    ensures match Parse(env.re, expression)
            case Err(e) => r == Err(e)
            case Ok(segments) =>
              var ns := TreeRead.Evaluate(env, t.Snap(), t.root, auth, segments);
              && r.Ok? && |r.value| == |ns|
              && (forall i :: 0 <= i < |ns| ==> r.value[i] == SampleOf(t.Snap(), ns[i]))
              && forall i :: 0 <= i < |ns| ==>
                   ns[i] in t.Snap() && r.value[i] == Sample(Decimal(t.Snap()[ns[i]].id), ns[i].key, t.Snap()[ns[i]].value)
  {
    hide Tree.Valid, TreeRead.Evaluate, Parse, Decimal;
    var parsed := ParseExpression(env.re, expression);
    if parsed.Err? {
      return Err(parsed.error);
    }
    var nodes := t.Evaluate(env, parsed.value, auth);
    var out: seq<Sample> := [];
    var i := 0;
    while i < |nodes|
      invariant 0 <= i <= |nodes| && |out| == i
      invariant forall j :: 0 <= j < i ==> out[j] == SampleOf(t.Snap(), nodes[j])
    {
      var n := nodes[i];
      assert n in t.nodes;
      out := out + [Sample(Decimal(n.id), n.key, n.value)];
      i := i + 1;
    }
    return Ok(out);
  }

  /** Two nodes of a tree, siblings with one key included, are never taken for each other. */
  lemma SamplesTellNodesApart(s: Snap, root: Node, last: nat, m: Node, n: Node)
    requires IdsOk(s, root, last) && m in s && n in s
    ensures Identity(SampleOf(s, m)) == Identity(SampleOf(s, n)) <==> m == n
  {
    hide Decimal;
    if Decimal(s[m].id) == Decimal(s[n].id) {
      Continuation.DecimalInjective(s[m].id, s[n].id);
    }
    DecimalNotEmpty(s[m].id);
    DecimalNotEmpty(s[n].id);
  }

  lemma DecimalNotEmpty(n: nat)
    ensures Decimal(n) != []
  {
  }
}
