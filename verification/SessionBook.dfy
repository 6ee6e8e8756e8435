/**
 * The bookkeeping of a session as one value: which requests have been executed, what has
 * been sent, and which replies are kept for retransmitted requests
 * (goimpl/internal/server/server.go:254-381), with the time at which it is kept and the
 * table of what awaits acknowledgement. What every message keeps of it, and what follows
 * for whole runs, whatever the requests do to the tree.
 */
module SessionBook {
  import opened Basics
  import opened WireTypes
  import opened Replies
  import opened Receiver
  import Codec
  import Sender

  function RequestSeq(m: Message): Option<int64> {
    match m
    case MsgGet(g) => Some(g.sequenceNumber)
    case MsgSet(s) => Some(s.sequenceNumber)
    case MsgCreate(c) => Some(c.sequenceNumber)
    case MsgQuery(q) => Some(q.sequenceNumber)
    case MsgDelete(d) => Some(d.sequenceNumber)
    case _ => None
  }

  /** The five kinds of request, and no other message, are recognised by their sequence number. */
  lemma RequestsAre(m: Message)
    ensures m.MsgGet? ==> RequestSeq(m) == Some(m.get.sequenceNumber)
    ensures m.MsgSet? ==> RequestSeq(m) == Some(m.set_.sequenceNumber)
    ensures m.MsgCreate? ==> RequestSeq(m) == Some(m.create.sequenceNumber)
    ensures m.MsgQuery? ==> RequestSeq(m) == Some(m.query.sequenceNumber)
    ensures m.MsgDelete? ==> RequestSeq(m) == Some(m.delete.sequenceNumber)
    ensures m.MsgResponse? || m.MsgSummaryAck? ==> RequestSeq(m) == None
  {
  }

  datatype Book = Book(
    recv: Recv,
    history: seq<int64>,             // the requests executed, in order
    executed: set<int64>,
    queried: set<int64>,             // those that registered a query
    entries: map<int64, Cached>,     // the reply cache
    clock: nat,                      // when a reply was last kept
    outbox: seq<Response>,           // everything sent
    next: int64,                     // the transport number given out last
    pending: Sender.Table)           // what awaits acknowledgement

  /** The same answer, whatever its transport number. */
  predicate SameReply(r: Response, kept: Response) {
    r.inReplyTo == kept.inReplyTo && r.error == kept.error && r.errorNode == kept.errorNode && r.nodes == kept.nodes
  }

  /** r answers request k; the replies of a query that carry nodes are pushes, not answers. */
  predicate IsAnswer(r: Response, k: int64, query: bool) {
    r.inReplyTo == k && (query ==> r.nodes == [])
  }

  /** The position of the first answer to k, or -1. */
  function FirstAnswer(outbox: seq<Response>, k: int64, query: bool): (i: int)
    ensures -1 <= i < |outbox|
    ensures i >= 0 ==> IsAnswer(outbox[i], k, query)
    ensures forall j :: 0 <= j < (if i >= 0 then i else |outbox|) ==> !IsAnswer(outbox[j], k, query)
  {
    if outbox == [] then -1
    else
      var n := |outbox| - 1;
      var i := FirstAnswer(outbox[..n], k, query);
      assert forall j :: 0 <= j < n ==> outbox[..n][j] == outbox[j];
      if i >= 0 then i else if IsAnswer(outbox[n], k, query) then n else -1
  }

  lemma FirstAnswerSnoc(outbox: seq<Response>, r: Response, k: int64, query: bool)
    ensures FirstAnswer(outbox + [r], k, query)
         == if FirstAnswer(outbox, k, query) >= 0 then FirstAnswer(outbox, k, query)
            else if IsAnswer(r, k, query) then |outbox| else -1
  {
    assert (outbox + [r])[..|outbox|] == outbox;
  }

  // --- what holds between messages -------------------------------------------------------

  /** No request occurs twice in the history of executions. */
  ghost predicate OnceEach(history: seq<int64>, executed: set<int64>) {
    NoDup(history) && forall s: int64 :: s in history <==> s in executed
  }

  lemma OnceMore(history: seq<int64>, executed: set<int64>, s: int64)
    requires OnceEach(history, executed) && s !in executed
    ensures OnceEach(history + [s], executed + {s})
  {
    var h := history + [s];
    assert forall i :: 0 <= i < |history| ==> h[i] == history[i] && history[i] in history;
  }

  /** Each kept reply is the one first sent to its request; for a query, its registration's. */
  ghost predicate Honest(entries: map<int64, Cached>, outbox: seq<Response>, queried: set<int64>) {
    forall k :: k in entries ==>
      var i := FirstAnswer(outbox, k, k in queried);
      i >= 0 && SameReply(outbox[i], entries[k].response)
  }

  /** All replies go to requests that have been executed, and all answers to one request are the same. */
  ghost predicate Agreeing(outbox: seq<Response>, executed: set<int64>, queried: set<int64>) {
    && (forall i :: 0 <= i < |outbox| ==> outbox[i].inReplyTo in executed)
    && (forall i, j :: 0 <= i < |outbox| && 0 <= j < |outbox| ==> Agree(outbox[i], outbox[j], queried))
  }

  predicate Agree(r: Response, q: Response, queried: set<int64>) {
    var k := r.inReplyTo;
    IsAnswer(r, k, k in queried) && IsAnswer(q, k, k in queried) ==> SameReply(r, q)
  }

  /** What holds of requests, replies and the cache. */
  ghost predicate Orderly(b: Book) {
    && Valid(b.recv) && (forall s :: s in b.executed ==> Seen(b.recv, s))
    && b.queried <= b.executed && OnceEach(b.history, b.executed)
    && Honest(b.entries, b.outbox, b.queried) && Agreeing(b.outbox, b.executed, b.queried)
  }

  /** Transport numbers ascend, from above lo to hi. */
  ghost predicate Ascends(rs: seq<Response>, lo: int, hi: int) {
    && lo <= hi && (forall i :: 0 <= i < |rs| ==> lo < rs[i].sequenceNumber <= hi)
    && (forall i, j :: 0 <= i < j < |rs| ==> rs[i].sequenceNumber < rs[j].sequenceNumber)
  }

  lemma AscendsConcat(a: seq<Response>, c: seq<Response>, lo: int, mid: int, hi: int)
    requires Ascends(a, lo, mid) && Ascends(c, mid, hi)
    ensures Ascends(a + c, lo, hi)
  {
    var rs := a + c;
    assert forall i :: 0 <= i < |rs| ==> rs[i] == if i < |a| then a[i] else c[i - |a|];
  }

  lemma AscendsInit(rs: seq<Response>, lo: int, hi: int)
    requires Ascends(rs, lo, hi) && rs != []
    ensures var n := |rs| - 1;
            var mid := if n == 0 then lo else rs[n - 1].sequenceNumber;
            Ascends(rs[..n], lo, mid) && mid < rs[n].sequenceNumber <= hi
  {
  }

  lemma AscendsBounds(rs: seq<Response>, lo: int, hi: int)
    requires Ascends(rs, lo, hi)
    ensures lo <= hi
  {
  }

  /** r's octets, as the sender gets them. */
  function Octets(r: Response): Bytes {
    Codec.MessageOctets(MsgResponse(r))
  }

  /** Whatever awaits acknowledgement under number k is the reply sent with that number. */
  ghost predicate Tracked(pending: Sender.Table, outbox: seq<Response>) {
    forall k :: k in pending ==> TrackedAt(pending[k].payload, outbox, k)
  }

  ghost predicate TrackedAt(payload: Bytes, outbox: seq<Response>, k: int64) {
    exists i :: 0 <= i < |outbox| && outbox[i].sequenceNumber == k && payload == Octets(outbox[i])
  }

  ghost predicate BookOk(b: Book) {
    Orderly(b) && Ascends(b.outbox, 0, b.next) && Tracked(b.pending, b.outbox)
  }

  /** r sent at time now, under a number of its own, and tracked until it is acknowledged. */
  function Post(b: Book, r: Response, now: int): Book {
    b.(outbox := b.outbox + [r], next := r.sequenceNumber, pending := Sender.Track(b.pending, r.sequenceNumber, Octets(r), now))
  }

  function PostAll(b: Book, rs: seq<Response>, now: int): Book {
    if rs == [] then b else Post(PostAll(b, rs[..|rs| - 1], now), rs[|rs| - 1], now)
  }

  lemma PostAllSnoc(b: Book, rs: seq<Response>, r: Response, now: int)
    ensures PostAll(b, rs + [r], now) == Post(PostAll(b, rs, now), r, now)
  {
    assert (rs + [r])[..|rs|] == rs;
  }

  lemma {:induction false} PostAllOutbox(b: Book, rs: seq<Response>, now: int)
    ensures PostAll(b, rs, now).outbox == b.outbox + rs
    ensures PostAll(b, rs, now) == b.(outbox := b.outbox + rs, next := PostAll(b, rs, now).next, pending := PostAll(b, rs, now).pending)
  {
    hide Octets;
    if rs == [] {
      assert b.outbox + rs == b.outbox;
    } else {
      var n := |rs| - 1;
      PostAllOutbox(b, rs[..n], now);
      assert rs == rs[..n] + [rs[n]];
    }
  }

  /** No answer to k has been sent. */
  ghost predicate Unanswered(b: Book, k: int64) {
    FirstAnswer(b.outbox, k, k in b.queried) < 0
  }

  /** r may be sent: it is no answer, or the first one, or the same as the first one. */
  ghost predicate Sendable(b: Book, r: Response) {
    var k := r.inReplyTo;
    var i := FirstAnswer(b.outbox, k, k in b.queried);
    k in b.executed && (IsAnswer(r, k, k in b.queried) ==> i < 0 || SameReply(r, b.outbox[i]))
  }

  lemma SendKeepsOrder(b: Book, r: Response)
    requires Orderly(b) && Sendable(b, r)
    ensures Orderly(b.(outbox := b.outbox + [r]))
  {
    hide FirstAnswer, Valid, Seen, OnceEach;
    var outbox := b.outbox + [r];
    forall k | k in b.entries
      ensures var i := FirstAnswer(outbox, k, k in b.queried); i >= 0 && SameReply(outbox[i], b.entries[k].response)
    {
      FirstAnswerSnoc(b.outbox, r, k, k in b.queried);
    }
    var k := r.inReplyTo;
    var first := FirstAnswer(b.outbox, k, k in b.queried);
    forall j | 0 <= j < |b.outbox|
      ensures Agree(r, b.outbox[j], b.queried) && Agree(b.outbox[j], r, b.queried)
    {
      if first >= 0 && b.outbox[j].inReplyTo == k {
        assert Agree(b.outbox[first], b.outbox[j], b.queried);
      }
    }
    forall i, j | 0 <= i < |outbox| && 0 <= j < |outbox|
      ensures Agree(outbox[i], outbox[j], b.queried)
    {
      if i < |b.outbox| && j < |b.outbox| {
        assert Agree(b.outbox[i], b.outbox[j], b.queried);
      }
    }
  }

  lemma SameOrder(b: Book, c: Book)
    requires Orderly(b)
    requires c == b.(clock := c.clock, next := c.next, pending := c.pending)
    ensures Orderly(c)
  {
  }

  lemma SendKeepsBook(b: Book, r: Response, now: int)
    requires BookOk(b) && Sendable(b, r) && b.next < r.sequenceNumber
    ensures BookOk(Post(b, r, now))
  {
    hide Orderly, Sendable;
    SendKeepsOrder(b, r);
    SameOrder(b.(outbox := b.outbox + [r]), Post(b, r, now));
    assert Ascends([r], b.next, r.sequenceNumber);
    AscendsConcat(b.outbox, [r], 0, b.next, r.sequenceNumber);
    hide Ascends;
    TrackKeepsTracked(b.pending, b.outbox, r, now);
  }

  lemma TrackKeepsTracked(pending: Sender.Table, outbox: seq<Response>, r: Response, now: int)
    requires Tracked(pending, outbox)
    ensures Tracked(Sender.Track(pending, r.sequenceNumber, Octets(r), now), outbox + [r])
  {
    hide Octets;
    var after, outbox' := Sender.Track(pending, r.sequenceNumber, Octets(r), now), outbox + [r];
    forall k | k in after
      ensures TrackedAt(after[k].payload, outbox', k)
    {
      if k == r.sequenceNumber {
        assert outbox'[|outbox|] == r;
      } else {
        var i :| 0 <= i < |outbox| && outbox[i].sequenceNumber == k && pending[k].payload == Octets(outbox[i]);
        assert outbox'[i] == outbox[i];
      }
    }
  }

  /** A transport number is used up, with or without anything being sent. */
  lemma NextKeepsBook(b: Book, next: int64)
    requires BookOk(b) && b.next <= next
    ensures BookOk(b.(next := next))
  {
    SameOrder(b, b.(next := next));
    hide Orderly;
  }

  /** A sender's table that has lost entries, or has the same payloads. */
  lemma TableKeepsBook(b: Book, pending: Sender.Table)
    requires BookOk(b) && forall k :: k in pending ==> k in b.pending && pending[k].payload == b.pending[k].payload
    ensures BookOk(b.(pending := pending))
  {
    SameOrder(b, b.(pending := pending));
    hide Orderly, Ascends, TrackedAt;
  }

  /** The cache with one more reply, kept at time now, and without what is too old by then. */
  function KeepingToo(entries: map<int64, Cached>, k: int64, kept: Response, now: nat): map<int64, Cached> {
    Unexpired(entries, now)[k := Cached(kept, now)]
  }

  lemma KeepKeepsBook(b: Book, k: int64, kept: Response, now: nat)
    requires BookOk(b)
    requires var i := FirstAnswer(b.outbox, k, k in b.queried); i >= 0 && SameReply(b.outbox[i], kept)
    ensures BookOk(b.(entries := KeepingToo(b.entries, k, kept, now), clock := now))
  {
    hide FirstAnswer, Valid, Seen, OnceEach, Agreeing, SameReply, Ascends, TrackedAt;
  }

  /** A new request. */
  ghost function Admitted(b: Book, s: int64): Book
    requires Valid(b.recv)
  {
    b.(recv := Marked(b.recv, s).0, executed := b.executed + {s}, history := b.history + [s])
  }

  lemma AdmitKeepsBook(b: Book, s: int64)
    requires BookOk(b) && Marked(b.recv, s).1
    ensures s >= 1 && s !in b.executed && s !in b.queried && s !in b.entries
    ensures BookOk(Admitted(b, s)) && Unanswered(Admitted(b, s), s)
  {
    hide OnceEach, Valid, Seen, Marked, Abandoned, SameReply, Agree, Ascends, TrackedAt;
    MarkRefinesSet(b.recv, s);
    OnceMore(b.history, b.executed, s);
  }

  /** A query that is registered before anything has been sent to it. */
  lemma RegisterKeepsBook(b: Book, k: int64)
    requires BookOk(b) && k in b.executed && k !in b.queried && Unanswered(b, k)
    ensures BookOk(b.(queried := b.queried + {k})) && Unanswered(b.(queried := b.queried + {k}), k)
    ensures k !in b.entries
  {
    hide OnceEach, Valid, Seen, Ascends, TrackedAt;
    var queried := b.queried + {k};
    assert forall i :: 0 <= i < |b.outbox| ==> b.outbox[i].inReplyTo != k;
    forall i, j | 0 <= i < |b.outbox| && 0 <= j < |b.outbox|
      ensures Agree(b.outbox[i], b.outbox[j], queried)
    {
      assert Agree(b.outbox[i], b.outbox[j], b.queried);
    }
    hide Agree, SameReply;
  }

  // --- messages ----------------------------------------------------------------------------

  /** Every reply is to request s. */
  ghost predicate AllTo(rs: seq<Response>, s: int64) {
    forall i :: 0 <= i < |rs| ==> rs[i].inReplyTo == s
  }

  /** Of these replies at most one is an answer. */
  ghost predicate OneAnswer(rs: seq<Response>, s: int64, query: bool) {
    forall i, j :: 0 <= i < j < |rs| && IsAnswer(rs[i], s, query) ==> !IsAnswer(rs[j], s, query)
  }

  ghost predicate AnswerIn(rs: seq<Response>, s: int64, query: bool) {
    exists i :: 0 <= i < |rs| && IsAnswer(rs[i], s, query)
  }

  ghost predicate HasAnswer(rs: seq<Response>, s: int64, query: bool, kept: Response) {
    exists i :: 0 <= i < |rs| && IsAnswer(rs[i], s, query) && SameReply(rs[i], kept)
  }

  /** The answer among these replies, if there is one, is kept from now on, and what is too old by now is not; otherwise the cache stays. */
  ghost predicate KeepsAnswer(b: Book, s: int64, now: nat, rs: seq<Response>, b': Book) {
    if AnswerIn(rs, s, s in b'.queried) then
      && s in b'.entries && HasAnswer(rs, s, s in b'.queried, b'.entries[s].response)
      && b'.entries == KeepingToo(b.entries, s, b'.entries[s].response, now) && b'.clock == now
    else b'.entries == b.entries && b'.clock == b.clock
  }

  /**
   * b' is b after executing request s at time now, which was admitted and not yet
   * answered: at most one answer is sent, and what is sent is kept. Every reply has a
   * transport number of its own and is tracked.
   */
  ghost predicate Handled(b: Book, s: int64, now: nat, b': Book) {
    && b.outbox <= b'.outbox
    && var rs := b'.outbox[|b.outbox|..];
       && b' == PostAll(b, rs, now).(queried := b'.queried, entries := b'.entries, clock := b'.clock, next := b'.next)
       && (b'.queried == b.queried || b'.queried == b.queried + {s})
       && AllTo(rs, s) && OneAnswer(rs, s, s in b'.queried) && Ascends(rs, b.next, b'.next)
       && KeepsAnswer(b, s, now, rs, b')
  }

  /** b' is b after a request that is not new: the reply kept for it is sent once more, if there still is one. */
  ghost predicate Repeated(b: Book, s: int64, now: nat, b': Book) {
    if s in b.entries then
      && |b'.outbox| == |b.outbox| + 1 && b.outbox <= b'.outbox
      && var r := b'.outbox[|b.outbox|];
         b' == Post(b, r, now) && b.next < r.sequenceNumber && SameReply(r, b.entries[s].response)
    else b' == b
  }

  datatype Event =
    | Arrives(message: Message, now: nat)   // a datagram with this message, new or not
    | Pushes(query: int64, now: nat)        // a transfer of an active query
    | Ticks(now: nat, interval: int, maxAttempts: int)   // the sender's timer

  /** b' is b after a push to query k, or after one of which nothing fits. */
  ghost predicate Pushed(b: Book, k: int64, now: nat, b': Book) {
    && k in b.queried && b.next <= b'.next
    && (b' == b.(next := b'.next)
        || (|b'.outbox| == |b.outbox| + 1 && b.outbox <= b'.outbox
            && var r := b'.outbox[|b.outbox|];
               b' == Post(b, r, now) && b.next < r.sequenceNumber && r.inReplyTo == k && r.nodes != []))
  }

  /** What an event does to the book. */
  ghost predicate Step(b: Book, e: Event, b': Book) {
    BookOk(b) ==>
      match e
      case Arrives(m, now) =>
        var s := RequestSeq(m);
        && b.clock <= now
        && if s.None? then b' == (if m.MsgSummaryAck? then b.(pending := Sender.Acknowledge(b.pending, m.ack)) else b)
           else if Marked(b.recv, s.value).1 then Handled(Admitted(b, s.value), s.value, now, b')
           else Repeated(b, s.value, now, b')
      case Pushes(k, now) => Pushed(b, k, now, b')
      case Ticks(now, interval, maxAttempts) => b' == b.(pending := Sender.Tick(b.pending, now, interval, maxAttempts))
  }

  /** Where nothing answered s before, the one answer among the new replies is the first. */
  lemma FirstInAll(outbox: seq<Response>, rs: seq<Response>, s: int64, query: bool)
    requires FirstAnswer(outbox, s, query) < 0 && OneAnswer(rs, s, query)
    ensures forall j :: 0 <= j < |rs| && IsAnswer(rs[j], s, query) ==> FirstAnswer(outbox + rs, s, query) == |outbox| + j
    ensures !AnswerIn(rs, s, query) ==> FirstAnswer(outbox + rs, s, query) < 0
  {
    hide IsAnswer;
    var all := outbox + rs;
    var i := FirstAnswer(all, s, query);
    assert forall j :: 0 <= j < |outbox| ==> all[j] == outbox[j];
    assert forall j :: 0 <= j < |rs| ==> all[|outbox| + j] == rs[j];
    hide FirstAnswer;
    if i >= 0 {
      assert i >= |outbox| && IsAnswer(rs[i - |outbox|], s, query);
    }
  }

  /** Sending the replies of one execution, one after the other. */
  lemma {:induction false} SendAll(b: Book, rs: seq<Response>, s: int64, now: int, hi: int)
    requires BookOk(b) && s in b.executed && Unanswered(b, s) && AllTo(rs, s) && OneAnswer(rs, s, s in b.queried)
    requires Ascends(rs, b.next, hi)
    ensures BookOk(PostAll(b, rs, now)) && PostAll(b, rs, now).next <= hi
    ensures rs != [] ==> PostAll(b, rs, now).next == rs[|rs| - 1].sequenceNumber
    ensures rs == [] ==> PostAll(b, rs, now) == b
  {
    hide FirstAnswer, BookOk, IsAnswer, Ascends, Octets, Sendable, AnswerIn;
    if rs == [] {
      AscendsBounds(rs, b.next, hi);
    } else {
      var n := |rs| - 1;
      var init, last := rs[..n], rs[n];
      AscendsInit(rs, b.next, hi);
      assert forall j :: 0 <= j < n ==> rs[j] == init[j];
      SendAll(b, init, s, now, if n == 0 then b.next else init[n - 1].sequenceNumber);
      var mid := PostAll(b, init, now);
      PostAllOutbox(b, init, now);
      FirstInAll(b.outbox, init, s, s in b.queried);
      if IsAnswer(last, s, s in b.queried) {
        NoneBefore(init, last, s, s in b.queried);
      }
      SendableNext(b, mid, init, last, s);
      SendKeepsBook(mid, last, now);
    }
  }

  lemma NoneBefore(init: seq<Response>, last: Response, s: int64, query: bool)
    requires forall j :: 0 <= j < |init| && IsAnswer(init[j], s, query) ==> !IsAnswer(last, s, query)
    ensures IsAnswer(last, s, query) ==> !AnswerIn(init, s, query)
  {
  }

  lemma SendableNext(b: Book, mid: Book, init: seq<Response>, last: Response, s: int64)
    requires s in b.executed && last.inReplyTo == s && mid.executed == b.executed && mid.queried == b.queried
    requires mid.outbox == b.outbox + init
    requires IsAnswer(last, s, s in b.queried) ==> FirstAnswer(b.outbox + init, s, s in b.queried) < 0
    ensures Sendable(mid, last)
  {
    hide FirstAnswer, IsAnswer;
  }

  lemma HandledKeepsBook(b: Book, s: int64, now: nat, b': Book)
    requires BookOk(b) && s in b.executed && s !in b.queried && Unanswered(b, s) && Handled(b, s, now, b')
    ensures BookOk(b')
    ensures FirstAnswer(b'.outbox, s, s in b'.queried) >= 0 <==> AnswerIn(b'.outbox[|b.outbox|..], s, s in b'.queried)
    ensures AnswerIn(b'.outbox[|b.outbox|..], s, s in b'.queried) ==>
              SameReply(b'.outbox[FirstAnswer(b'.outbox, s, s in b'.queried)], b'.entries[s].response)
  {
    hide FirstAnswer, BookOk, IsAnswer, SameReply, AllTo, OneAnswer, HasAnswer, PostAll, Ascends, KeepingToo;
    var rs := b'.outbox[|b.outbox|..];
    var query := s in b'.queried;
    assert b'.outbox == b.outbox + rs;
    var mid := b.(queried := b'.queried);
    if b'.queried != b.queried {
      RegisterKeepsBook(b, s);
    }
    SendAll(mid, rs, s, now, b'.next);
    FirstInAll(b.outbox, rs, s, query);
    PostAllOutbox(mid, rs, now);
    PostAllQueried(b, rs, now, b'.queried);
    var sent := PostAll(mid, rs, now).(next := b'.next);
    NextKeepsBook(PostAll(mid, rs, now), b'.next);
    if AnswerIn(rs, s, query) {
      var kept := b'.entries[s].response;
      var i := AnswerAt(rs, s, query, kept);
      assert b'.outbox[|b.outbox| + i] == rs[i];
      KeepKeepsBook(sent, s, kept, now);
      assert b' == sent.(entries := KeepingToo(b.entries, s, kept, now), clock := now);
    } else {
      assert b' == sent;
    }
  }

  lemma {:induction false} PostAllQueried(b: Book, rs: seq<Response>, now: int, queried: set<int64>)
    ensures PostAll(b.(queried := queried), rs, now) == PostAll(b, rs, now).(queried := queried)
  {
    hide Octets;
    if rs != [] {
      PostAllQueried(b, rs[..|rs| - 1], now, queried);
    }
  }

  lemma AnswerAt(rs: seq<Response>, s: int64, query: bool, kept: Response) returns (i: nat)
    requires HasAnswer(rs, s, query, kept)
    ensures i < |rs| && IsAnswer(rs[i], s, query) && SameReply(rs[i], kept)
  {
    i :| 0 <= i < |rs| && IsAnswer(rs[i], s, query) && SameReply(rs[i], kept);
  }

  /** One reply, the request's answer, sent and kept. */
  lemma AnswerKeepsBook(b: Book, r: Response, kept: Response, now: nat)
    requires BookOk(b) && r.inReplyTo in b.executed && Unanswered(b, r.inReplyTo) && b.next < r.sequenceNumber
    requires IsAnswer(r, r.inReplyTo, r.inReplyTo in b.queried) && SameReply(r, kept)
    ensures var b' := Post(b, r, now).(entries := KeepingToo(b.entries, r.inReplyTo, kept, now), clock := now);
            BookOk(b') && Handled(b, r.inReplyTo, now, b')
  {
    hide BookOk, FirstAnswer, KeepingToo, Octets, Handled, SameReply;
    var k := r.inReplyTo;
    SendKeepsBook(b, r, now);
    FirstAnswerSnoc(b.outbox, r, k, k in b.queried);
    KeepKeepsBook(Post(b, r, now), k, kept, now);
    AnswerHandled(b, r, kept, now);
  }

  lemma AnswerHandled(b: Book, r: Response, kept: Response, now: nat)
    requires b.next < r.sequenceNumber && IsAnswer(r, r.inReplyTo, r.inReplyTo in b.queried) && SameReply(r, kept)
    ensures Handled(b, r.inReplyTo, now, Post(b, r, now).(entries := KeepingToo(b.entries, r.inReplyTo, kept, now), clock := now))
  {
    hide KeepingToo, Octets, SameReply;
    var k := r.inReplyTo;
    var b' := Post(b, r, now).(entries := KeepingToo(b.entries, k, kept, now), clock := now);
    KeptIn(b.entries, k, kept, now);
    var rs := b'.outbox[|b.outbox|..];
    assert rs == [r] && [] + [r] == [r];
    PostAllSnoc(b, [], r, now);
    assert IsAnswer(rs[0], k, k in b.queried);
  }

  lemma KeptIn(entries: map<int64, Cached>, k: int64, kept: Response, now: nat)
    ensures k in KeepingToo(entries, k, kept, now) && KeepingToo(entries, k, kept, now)[k] == Cached(kept, now)
  {
  }

  /** A push to a query is no answer. */
  lemma PushKeepsBook(b: Book, r: Response, now: int)
    requires BookOk(b) && r.inReplyTo in b.queried && r.nodes != [] && b.next < r.sequenceNumber
    ensures BookOk(Post(b, r, now))
    ensures Unanswered(b, r.inReplyTo) ==> Unanswered(Post(b, r, now), r.inReplyTo)
  {
    hide BookOk, FirstAnswer, Octets;
    QueriedExecuted(b, r.inReplyTo);
    SendKeepsBook(b, r, now);
    FirstAnswerSnoc(b.outbox, r, r.inReplyTo, true);
  }

  /** Nothing is sent, and nothing was kept. */
  lemma NothingHandled(b: Book, s: int64, now: nat, next: int64)
    requires BookOk(b) && Unanswered(b, s) && b.next <= next
    ensures s !in b.entries && Handled(b, s, now, b.(next := next))
  {
    hide FirstAnswer, Valid, Seen, Agreeing, OnceEach, Tracked;
    assert b.outbox[|b.outbox|..] == [];
  }

  /** A query: it is registered, its first transfer may be pushed, and it is acknowledged. */
  lemma QueryHandled(b: Book, s: int64, pushes: seq<Response>, now: nat, mid: Book, r: Response, kept: Response, b': Book)
    requires forall i :: 0 <= i < |pushes| ==> pushes[i].inReplyTo == s && pushes[i].nodes != []
    requires Ascends(pushes, b.next, mid.next) && mid.next < r.sequenceNumber
    requires mid == PostAll(b, pushes, now).(queried := b.queried + {s}, next := mid.next)
    requires r.inReplyTo == s && r.nodes == [] && SameReply(r, kept)
    requires b' == Post(mid, r, now).(entries := KeepingToo(mid.entries, s, kept, now), clock := now)
    ensures Handled(b, s, now, b')
  {
    hide KeepingToo, SameReply, Octets, PostAll;
    var rs := pushes + [r];
    PostAllOutbox(b, pushes, now);
    PostAllSnoc(b, pushes, r, now);
    assert b'.outbox == b.outbox + rs && b'.outbox[|b.outbox|..] == rs;
    assert Ascends([r], mid.next, r.sequenceNumber);
    AscendsConcat(pushes, [r], b.next, mid.next, r.sequenceNumber);
    hide Ascends;
    KeptIn(mid.entries, s, kept, now);
    assert rs[|pushes|] == r;
    assert IsAnswer(rs[|pushes|], s, true);
  }

  /** The first answer to s has been sent once more, if it is still kept, and nothing else. */
  ghost predicate SentAgain(outbox: seq<Response>, outbox': seq<Response>, s: int64, query: bool, kept: bool) {
    if kept then
      && |outbox'| == |outbox| + 1 && outbox <= outbox'
      && var i := FirstAnswer(outbox, s, query);
         i >= 0 && SameReply(outbox'[|outbox|], outbox[i])
    else outbox' == outbox
  }

  lemma RepeatedKeepsBook(b: Book, s: int64, now: nat, b': Book)
    requires BookOk(b) && Repeated(b, s, now, b')
    ensures BookOk(b')
    ensures SentAgain(b.outbox, b'.outbox, s, s in b.queried, s in b.entries)
  {
    hide FirstAnswer, BookOk, Octets;
    if s in b.entries {
      KeptIsFirst(b, s);
      SendKeepsBook(b, b'.outbox[|b.outbox|], now);
    }
  }

  lemma KeptIsFirst(b: Book, s: int64)
    requires BookOk(b) && s in b.entries
    ensures var i := FirstAnswer(b.outbox, s, s in b.queried);
            i >= 0 && SameReply(b.outbox[i], b.entries[s].response) && s in b.executed
  {
    hide FirstAnswer, OnceEach, Valid, Seen, Ascends, Tracked;
  }

  /** Every event keeps the book in order and only adds to what has been sent. */
  lemma StepKeepsBook(b: Book, e: Event, b': Book)
    requires BookOk(b) && Step(b, e, b')
    ensures BookOk(b') && b.outbox <= b'.outbox && b.history <= b'.history && b.queried <= b'.queried
  {
    hide BookOk, FirstAnswer, SameReply, AllTo, Marked, KeepingToo, Unanswered, PostAll, Ascends, Octets,
         KeepsAnswer, OneAnswer;
    BookValid(b);
    match e
    case Arrives(m, now) =>
      var s := RequestSeq(m);
      if s.Some? {
        if Marked(b.recv, s.value).1 {
          AdmitKeepsBook(b, s.value);
          var admitted := Admitted(b, s.value);
          HandledKeepsBook(admitted, s.value, now, b');
          PostAllOutbox(admitted, b'.outbox[|admitted.outbox|..], now);
        } else {
          RepeatedKeepsBook(b, s.value, now, b');
        }
      } else if m.MsgSummaryAck? {
        TableKeepsBook(b, Sender.Acknowledge(b.pending, m.ack));
      }
    case Pushes(k, now) =>
      QueriedExecuted(b, k);
      NextKeepsBook(b, b'.next);
      if b' != b.(next := b'.next) {
        PushKeepsBook(b, b'.outbox[|b.outbox|], now);
      }
    case Ticks(now, interval, maxAttempts) =>
      TableKeepsBook(b, Sender.Tick(b.pending, now, interval, maxAttempts));
  }

  lemma BookValid(b: Book)
    requires BookOk(b)
    ensures Valid(b.recv)
  {
  }

  lemma QueriedExecuted(b: Book, k: int64)
    requires BookOk(b) && k in b.queried
    ensures k in b.executed
  {
  }

  // --- runs ------------------------------------------------------------------------------------

  function Empty(): Book {
    Book(Recv(0, {}), [], {}, {}, map[], 0, [], 0, map[])
  }

  ghost predicate Run(books: seq<Book>, events: seq<Event>) {
    && |books| == |events| + 1 && books[0] == Empty()
    && forall i :: 0 <= i < |events| ==> Step(books[i], events[i], books[i + 1])
  }

  lemma {:induction false} RunKeepsBook(books: seq<Book>, events: seq<Event>, i: nat)
    requires Run(books, events) && i < |books|
    ensures BookOk(books[i])
  {
    hide BookOk, Step;
    if i > 0 {
      RunKeepsBook(books, events, i - 1);
      StepKeepsBook(books[i - 1], events[i - 1], books[i]);
    } else {
      EmptyBook();
    }
  }

  lemma EmptyBook()
    ensures BookOk(Empty())
  {
  }

  lemma {:induction false} RunGrows(books: seq<Book>, events: seq<Event>, i: nat, j: nat)
    requires Run(books, events) && i <= j < |books|
    ensures books[i].outbox <= books[j].outbox && books[i].history <= books[j].history && books[i].queried <= books[j].queried
    decreases j
  {
    hide BookOk, Step;
    if i < j {
      RunGrows(books, events, i, j - 1);
      RunKeepsBook(books, events, j - 1);
      StepKeepsBook(books[j - 1], events[j - 1], books[j]);
    }
  }

  /**
   * Over any run of messages, whatever their order and however often each one arrives,
   * a request is executed at most once, and any two replies to it are the same but for
   * their transport numbers; of a query this holds of the replies that carry no nodes.
   */
  lemma RunAnswersOnce(books: seq<Book>, events: seq<Event>, i: nat, a: nat, c: nat)
    requires Run(books, events) && i < |books|
    requires a < |books[i].outbox| && c < |books[i].outbox| && books[i].outbox[a].inReplyTo == books[i].outbox[c].inReplyTo
    ensures NoDup(books[i].history)
    ensures var (b, r, q) := (books[i], books[i].outbox[a], books[i].outbox[c]);
            && r.inReplyTo in b.history
            && (r.inReplyTo !in b.queried || (r.nodes == [] && q.nodes == []) ==> SameReply(r, q))
  {
    hide Run, FirstAnswer, Valid, Seen, Honest, Ascends, Tracked;
    RunKeepsBook(books, events, i);
    assert Agree(books[i].outbox[a], books[i].outbox[c], books[i].queried);
  }

  /**
   * Over any run no transport number is used twice, later replies having higher ones,
   * and what awaits acknowledgement under a number is the reply sent with it, octet by octet.
   */
  lemma RunNumbersReplies(books: seq<Book>, events: seq<Event>, i: nat, a: nat, c: nat, k: int64)
    requires Run(books, events) && i < |books|
    ensures a < c < |books[i].outbox| ==> books[i].outbox[a].sequenceNumber < books[i].outbox[c].sequenceNumber
    ensures k in books[i].pending ==> TrackedAt(books[i].pending[k].payload, books[i].outbox, k)
  {
    hide Run, Orderly, TrackedAt;
    RunKeepsBook(books, events, i);
  }

  // --- how long an answer is kept ----------------------------------------------------------------

  /** Request s was new when it arrived by event i. */
  ghost predicate NewAt(books: seq<Book>, events: seq<Event>, i: nat, s: int64) {
    && i < |events| && i < |books| && events[i].Arrives? && RequestSeq(events[i].message) == Some(s)
    && BookOk(books[i]) && Marked(books[i].recv, s).1
  }

  /** The cache holds the answer at position k of these replies, kept since t, as long as no reply has been kept TTL later. */
  ghost predicate HeldSince(b: Book, outbox: seq<Response>, s: int64, k: int, t: nat) {
    && -1 <= k < |outbox| && (k >= 0 ==> t <= b.clock)
    && (s in b.entries <==> k >= 0 && b.clock - t <= TTL)
    && (s in b.entries ==> b.entries[s].at == t && SameReply(outbox[k], b.entries[s].response))
  }

  /** Right after the execution. */
  lemma HeldAtFirst(b: Book, s: int64, now: nat, b': Book)
    requires BookOk(b) && s in b.executed && s !in b.queried && Unanswered(b, s) && s !in b.entries && Handled(b, s, now, b')
    ensures HeldSince(b', b'.outbox, s, FirstAnswer(b'.outbox, s, s in b'.queried), now)
  {
    hide BookOk, FirstAnswer, SameReply, AllTo, OneAnswer, PostAll, Ascends, AnswerIn, HasAnswer, KeepingToo;
    HandledKeepsBook(b, s, now, b');
    if s in b'.entries {
      KeptIn(b.entries, s, b'.entries[s].response, now);
    }
  }

  /** What keeping a reply does to the others. */
  lemma HeldWhenKeeping(b: Book, b': Book, outbox: seq<Response>, s: int64, k: int, t: nat, other: int64,
                        kept: Response, now: nat)
    requires HeldSince(b, outbox, s, k, t) && other != s && b.clock <= now
    requires b'.entries == KeepingToo(b.entries, other, kept, now) && b'.clock == now
    ensures HeldSince(b', outbox, s, k, t)
  {
    hide SameReply;
  }

  lemma HeldStep(b: Book, e: Event, b': Book, outbox: seq<Response>, s: int64, k: int, t: nat)
    requires BookOk(b) && Step(b, e, b') && Seen(b.recv, s) && HeldSince(b, outbox, s, k, t)
    ensures HeldSince(b', outbox, s, k, t)
  {
    hide BookOk, FirstAnswer, SameReply, AllTo, OneAnswer, PostAll, Ascends, AnswerIn, HasAnswer, KeepingToo, Marked,
         Seen,
         Octets, Abandoned;
    BookValid(b);
    if e.Arrives? && RequestSeq(e.message).Some? {
      var other := RequestSeq(e.message).value;
      MarkRefinesSet(b.recv, other);
      if Marked(b.recv, other).1 {
        var admitted := Admitted(b, other);
        var rs := b'.outbox[|admitted.outbox|..];
        PostAllOutbox(admitted, rs, e.now);
        if AnswerIn(rs, other, other in b'.queried) {
          HeldWhenKeeping(b, b', outbox, s, k, t, other, b'.entries[other].response, e.now);
        }
      }
    }
  }

  lemma {:induction false} HeldAlong(books: seq<Book>, events: seq<Event>, i: nat, j: nat, s: int64)
    requires Run(books, events) && i < j < |books| && NewAt(books, events, i, s)
    ensures var b := books[i + 1];
            Seen(books[j].recv, s)
            && HeldSince(books[j], b.outbox, s, FirstAnswer(b.outbox, s, s in b.queried), events[i].now)
    decreases j
  {
    hide BookOk, FirstAnswer, Marked, Seen, HeldSince, Unanswered, Handled, Abandoned;
    var t := events[i].now;
    RunKeepsBook(books, events, i);
    BookValid(books[i]);
    assert Step(books[i], events[i], books[i + 1]);
    if j == i + 1 {
      AdmitKeepsBook(books[i], s);
      HeldAtFirst(Admitted(books[i], s), s, t, books[j]);
      SeenAfter(books[i], events[i].message, t, books[j]);
    } else {
      HeldAlong(books, events, i, j - 1, s);
      RunKeepsBook(books, events, j - 1);
      assert Step(books[j - 1], events[j - 1], books[j]);
      var b := books[i + 1];
      hide Step;
      HeldStep(books[j - 1], events[j - 1], books[j], b.outbox, s, FirstAnswer(b.outbox, s, s in b.queried), t);
      SeenForGood(books, events, j - 1, j, s);
    }
  }

  /**
   * A request that arrives again, at any later point of the run, is not executed again.
   * If it was answered, and no reply has been kept more than TTL after that answer was, it
   * is sent the same answer once more; in every other case it is sent nothing.
   */
  lemma RetransmissionIsAnsweredAlike(books: seq<Book>, events: seq<Event>, i: nat, j: nat, s: int64)
    requires Run(books, events) && i < j < |events| && NewAt(books, events, i, s)
    requires events[j].Arrives? && RequestSeq(events[j].message) == Some(s)
    ensures var (first, b, b') := (books[i + 1].outbox, books[j], books[j + 1]);
            var k := FirstAnswer(first, s, s in books[i + 1].queried);
            && b'.history == b.history && first <= b.outbox
            && (if k >= 0 && b.clock - events[i].now <= TTL then
                  && |b'.outbox| == |b.outbox| + 1 && b.outbox <= b'.outbox
                  && SameReply(b'.outbox[|b.outbox|], first[k])
                else b'.outbox == b.outbox)
  {
    hide BookOk, FirstAnswer, Marked, Handled, Seen, NewAt, Octets, Abandoned;
    RunKeepsBook(books, events, j);
    BookValid(books[j]);
    HeldAlong(books, events, i, j, s);
    RunGrows(books, events, i + 1, j);
    assert Step(books[j], events[j], books[j + 1]);
    MarkRefinesSet(books[j].recv, s);
  }

  /** Once a request has arrived, the receiver has seen it. */
  lemma SeenAfter(b: Book, m: Message, now: nat, b': Book)
    requires BookOk(b) && Step(b, Arrives(m, now), b') && RequestSeq(m).Some? && RequestSeq(m).value >= 1
    ensures Seen(b'.recv, RequestSeq(m).value)
  {
    hide BookOk, Marked, Abandoned, FirstAnswer, KeepsAnswer, AllTo, PostAll, OneAnswer, Ascends, Octets;
    BookValid(b);
    var s := RequestSeq(m).value;
    MarkRefinesSet(b.recv, s);
    if Marked(b.recv, s).1 {
      PostAllOutbox(Admitted(b, s), b'.outbox[|b.outbox|..], now);
    }
  }

  lemma {:induction false} SeenForGood(books: seq<Book>, events: seq<Event>, i: nat, j: nat, s: int64)
    requires Run(books, events) && i <= j < |books| && Seen(books[i].recv, s)
    ensures Seen(books[j].recv, s)
    decreases j
  {
    hide BookOk, Step, Seen;
    if i < j {
      SeenForGood(books, events, i, j - 1, s);
      RunKeepsBook(books, events, j - 1);
      assert Step(books[j - 1], events[j - 1], books[j]);
      StepKeepsSeen(books[j - 1], events[j - 1], books[j], s);
    }
  }

  lemma StepKeepsSeen(b: Book, e: Event, b': Book, s: int64)
    requires BookOk(b) && Step(b, e, b') && Seen(b.recv, s)
    ensures Seen(b'.recv, s)
  {
    hide BookOk, Marked, Abandoned, Seen, FirstAnswer, KeepsAnswer, AllTo, PostAll, OneAnswer, Ascends, Octets;
    BookValid(b);
    if e.Arrives? && RequestSeq(e.message).Some? {
      var k := RequestSeq(e.message).value;
      MarkRefinesSet(b.recv, k);
      if Marked(b.recv, k).1 {
        PostAllOutbox(Admitted(b, k), b'.outbox[|b.outbox|..], e.now);
      }
    }
  }
}
