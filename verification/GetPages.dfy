/**
 * A large result, page by page: what handleGet answers to "base@index"
 * (goimpl/internal/server/server.go:512-523, goimpl/internal/tree/tree.go:409-428), and
 * that a client which follows its continuations (goimpl/cmd/client/main.go:324-365) gets
 * the visible forest whole.
 */
module GetPages {
  import opened Basics
  import opened WireTypes
  import opened Expression
  import opened Authz
  import opened Flatten
  import opened Fit
  import opened TreeState
  import opened TreeRead
  import opened TreeGrow
  import opened SessionEffects
  import Continuation
  import Codec

  /** What a Get of this base shows: nothing if it does not parse. */
  ghost function Visible(env: Engine, s: Snap, root: Node, auth: Option<Checker>, base: Bytes): seq<Rose>
    requires Inv(s, root)
  {
    if Parse(env.re, base).Ok? then ViewsOf(s, root, auth, Evaluate(env, s, root, auth, Parse(env.re, base).value)) else []
  }

  /** An expression without "@" has no suffix. */
  lemma {:induction false} NoSuffix(raw: Bytes)
    requires AT !in raw
    ensures !SplitFirst(raw, AT).found
    decreases |raw|
  {
    if raw != [] {
      if EscapeAt(raw, AT) {
        NoSuffix(raw[2..]);
      } else {
        NoSuffix(raw[1..]);
      }
    }
  }

  /** A Get of "base@k" answers with the same forest as one of base, from index k on, and fails exactly beyond its end. */
  lemma PageOf(env: Engine, s: Snap, root: Node, auth: Option<Checker>, base: Bytes, k: nat)
    requires Inv(s, root) && CleanBase(base) && k <= MAX_INT64
    ensures var forest := Visible(env, s, root, auth, base);
            match Parse(env.re, base)
            case Err(e) =>
              && GetFull(env, s, root, auth, ResumeExpression(base, k)) == Err(BadExpression(e))
              && GetFull(env, s, root, auth, base) == Err(BadExpression(e))
            case Ok(_) =>
              && GetFull(env, s, root, auth, ResumeExpression(base, k))
                 == (if k <= Size(forest) then Ok(GetResult(forest, k, base)) else Err(ResumeOutOfRange))
              && GetFull(env, s, root, auth, base) == Ok(GetResult(forest, 0, base))
  {
    hide Inv, Evaluate, Parse, ViewsOf, Size, SplitFirst, CleanBase, ResumeExpression, Digits;
    ResumeSuffixSurvives(base, k);
    CleanHasNoAt(base);
    NoSuffix(base);
  }

  lemma CleanHasNoAt(base: Bytes)
    requires CleanBase(base)
    ensures AT !in base
  {
  }

  /** The session as a server whose tree stays as it is, each round with its own transport and request numbers. */
  ghost function SessionServer(w: World, f: Setup, s: Snap, tx: nat -> int64, requests: nat -> int64): Continuation.Server
    requires Inv(s, f.root)
  {
    Continuation.Server(
      b => if Inv(s, f.root) && Size(Visible(w.env, s, f.root, f.auth, b)) <= MAX_INT64
           then Flat(Visible(w.env, s, f.root, f.auth, b)) else [],
      round => f.budget,
      Measure(f.budget, tx, requests))
  }

  /** The size of a round's Response, by which it is cut; any size will do where the budget is not known. */
  function Measure(budget: nat, tx: nat -> int64, requests: nat -> int64): nat -> seq<WireNode> -> int {
    (round: nat) => if budget == 0 then (nodes: seq<WireNode>) => 0 else Codec.ResponseSize(tx(round), requests(round))
  }

  /** Whatever a session sends of an array is what that server delivers. */
  lemma SentAlike(w: World, f: Setup, s: Snap, tx: nat -> int64, requests: nat -> int64, round: nat, base: Bytes, k: nat)
    requires Inv(s, f.root) && Size(Visible(w.env, s, f.root, f.auth, base)) <= MAX_INT64
    requires k <= Size(Visible(w.env, s, f.root, f.auth, base))
    ensures var srv := SessionServer(w, f, s, tx, requests);
            && srv.results(base) == Flat(Visible(w.env, s, f.root, f.auth, base))
            && Continuation.Sent(srv, round, base, k)
               == ToSend(Flat(Visible(w.env, s, f.root, f.auth, base)), k, base, f.budget, tx(round), requests(round))
  {
    hide Inv, Visible, Flat, Size, Chosen, Window, Fitting, Codec.ResponseSize;
  }

  /**
   * What handleGet does for a page: the tree stays, and the reply carries exactly what
   * that server delivers from index k on, or there is none where it delivers nothing.
   */
  lemma PageIsSent(w: World, f: Setup, st: State, t: State, tx: nat -> int64, requests: nat -> int64, round: nat,
                   base: Bytes, k: nat, sent: seq<Response>)
    requires Inv(st.s, f.root) && CleanBase(base) && Parse(w.env.re, base).Ok?
    requires k <= Size(Visible(w.env, st.s, f.root, f.auth, base)) <= MAX_INT64
    ensures k <= |SessionServer(w, f, st.s, tx, requests).results(base)|
    ensures var g := Get(requests(round), AbsolutePointer(ResumeExpression(base, k)));
            GetEffect(w, f, g, tx(round), st, t, sent) <==>
              && t == st
              && sent == (match Continuation.Sent(SessionServer(w, f, st.s, tx, requests), round, base, k)
                          case None => []
                          case Some(nodes) => [Response(tx(round), requests(round), false, None, nodes)])
    ensures k == 0 ==>
              (GetEffect(w, f, Get(requests(round), AbsolutePointer(base)), tx(round), st, t, sent) <==>
               GetEffect(w, f, Get(requests(round), AbsolutePointer(ResumeExpression(base, 0))), tx(round), st, t, sent))
  {
    hide Inv, Visible, Flat, Size, ToSend, GetFull, Parse, CleanBase, ResumeExpression, SessionServer,
         Continuation.Sent, Failed,
         Text;
    PageOf(w.env, st.s, f.root, f.auth, base, k);
    SentAlike(w, f, st.s, tx, requests, round, base, k);
  }

  /** Past the end a page is an error. */
  lemma PageBeyond(w: World, f: Setup, st: State, t: State, tx: int64, request: int64, base: Bytes, k: nat,
                   sent: seq<Response>)
    requires Inv(st.s, f.root) && CleanBase(base) && Parse(w.env.re, base).Ok?
    requires Size(Visible(w.env, st.s, f.root, f.auth, base)) < k <= MAX_INT64
    requires GetEffect(w, f, Get(request, AbsolutePointer(ResumeExpression(base, k))), tx, st, t, sent)
    ensures Failed(f, tx, request, Text("InvalidExpression"), w.getText(ResumeOutOfRange), st, t, sent)
  {
    hide Inv, Visible, Size, GetFull, Parse, CleanBase, ResumeExpression, Failed, Text;
    PageOf(w.env, st.s, f.root, f.auth, base, k);
  }

  /** With a known budget, no reply with nodes is longer than it, and a remainder that is not is sent whole. */
  lemma ReplyFits(flat: seq<WireNode>, resume: nat, base: Bytes, budget: nat, tx: int64, request: int64)
    requires resume <= |flat| && budget > 0
    ensures var r := ToSend(flat, resume, base, budget, tx, request);
            && (r.Some? ==> |Codec.MessageOctets(MsgResponse(Response(tx, request, false, None, r.value)))| <= budget)
            && (|Codec.MessageOctets(MsgResponse(Response(tx, request, false, None, flat[resume..])))| <= budget ==>
                  r == Some(flat[resume..]))
  {
    hide Delivered, Codec.MessageOctets;
    DeliveredFits(flat, resume, base, budget, Codec.ResponseSize(tx, request));
  }

  // --- whole results ---------------------------------------------------------------------------

  /** Each piece begins where the one before it ended and is what its round delivers from there. */
  lemma {:induction false} PiecesAreSent(srv: Continuation.Server, base: Bytes, done: seq<Continuation.Fetch>, i: nat)
    requires Continuation.Pieces(srv, base, done).Some?
    ensures var all := Continuation.Pieces(srv, base, done).value;
            && done <= all
            && (|done| <= i < |all| ==>
                  && all[i].start == Continuation.Reached(all[..i]) && all[i].start <= |srv.results(base)|
                  && Continuation.Sent(srv, i, base, all[i].start) == Some(all[i].nodes))
    decreases |srv.results(base)| - Continuation.Reached(done), if done == [] then 1 else 0
  {
    hide Continuation.Sent;
    var c := Continuation.Reached(done);
    if !(c > |srv.results(base)| || (c == |srv.results(base)| && done != [])) {
      var nodes := Continuation.Sent(srv, |done|, base, c).value;
      var next := Continuation.Fetch(c, nodes);
      Continuation.SentInside(srv, |done|, base, c);
      Continuation.ReachedSnoc(done, next);
      PiecesAreSent(srv, base, done + [next], i);
      var all := Continuation.Pieces(srv, base, done).value;
      assert all[..|done|] == (done + [next])[..|done|] == done;
      assert all[|done|] == (done + [next])[|done|] == next;
    }
  }

  /** What the client gets, round by round, is what handleGet sends for the expression it asks for. */
  ghost predicate AllSent(w: World, f: Setup, st: State, tx: nat -> int64, requests: nat -> int64, base: Bytes,
                          fetches: seq<Continuation.Fetch>)
  {
    forall i :: 0 <= i < |fetches| ==> SentAt(w, f, st, tx, requests, base, fetches, i)
  }

  ghost predicate SentAt(w: World, f: Setup, st: State, tx: nat -> int64, requests: nat -> int64, base: Bytes,
                         fetches: seq<Continuation.Fetch>, i: nat)
    requires i < |fetches|
  {
    && fetches[i].start == Continuation.Reached(fetches[..i])
    && GetEffect(w, f, Get(requests(i), AbsolutePointer(ResumeExpression(base, fetches[i].start))), tx(i), st, st,
                 [Response(tx(i), requests(i), false, None, fetches[i].nodes)])
  }

  /**
   * followGet against a session: where it completes, each of its fetches is what the
   * session sends for "base@index" at the index where the one before it ended, and the
   * pieces put together and read by their offsets are the forest that the caller may see
   * of what the expression matches. It completes if every round finds something that fits
   * and no more than MAX_FOLLOWUPS indices are cut off.
   */
  method FetchVisible(forest: Bytes -> seq<Rose>, budget: nat, tx: nat -> int64, requests: nat -> int64, root: Bytes,
                      ghost w: World, ghost f: Setup, ghost st: State)
      returns (fetches: seq<Continuation.Fetch>, outcome: Continuation.Outcome)
    requires Inv(st.s, f.root) && budget == f.budget
    requires forall b :: forest(b) == Visible(w.env, st.s, f.root, f.auth, b) && Size(forest(b)) <= MAX_INT64
    ensures var (base, start) := SplitResumeSuffix(root);
            var srv := SessionServer(w, f, st.s, tx, requests);
            CleanBase(base) && start == 0 && Parse(w.env.re, base).Ok? ==>
              && (outcome == Continuation.Complete <==>
                    var pieces := Continuation.Pieces(srv, base, []);
                    pieces.Some? && |Continuation.Cuts(srv.results(base), pieces.value)| <= Continuation.MAX_FOLLOWUPS)
              && (!Continuation.Starves(srv, base) && Size(forest(base)) <= Continuation.MAX_FOLLOWUPS ==>
                    outcome == Continuation.Complete)
              && (outcome == Continuation.Complete ==> AllSent(w, f, st, tx, requests, base, fetches))
              && (outcome == Continuation.Complete && forest(base) != [] ==>
                    var all := Continuation.Reassemble(fetches, base);
                    |all| > 0 && Unflatten(all, 0) == Visible(w.env, st.s, f.root, f.auth, base))
  {
    hide Inv, Visible, Flat, Size, SplitResumeSuffix, CleanBase, Relative, Continuation.Linked, Continuation.Once,
         Continuation.Pieces, Continuation.Cuts, Continuation.Reassemble, Continuation.Starves, Continuation.Tiles,
         Continuation.Sent, AllSent, Parse, Measure, SessionServer, Continuation.ServerOf;
    var srv := Continuation.ServerOf(forest, _ => budget, Measure(budget, tx, requests));
    ghost var session := SessionServer(w, f, st.s, tx, requests);
    forall b
      ensures Relative(srv.results(b)) && Continuation.Linked(srv.results(b)) && Continuation.Once(srv.results(b))
      ensures srv.results(b) == session.results(b) == Flat(forest(b))
    {
      Continuation.ServerSound(forest, _ => budget, Measure(budget, tx, requests), b);
      SessionShows(w, f, st.s, tx, requests, b);
    }
    fetches, outcome := Continuation.FollowGet(srv, root);
    ghost var base := SplitResumeSuffix(root).0;
    SameServers(w, f, st.s, forest, budget, tx, requests, srv, base);
    if CleanBase(base) && SplitResumeSuffix(root).1 == 0 && Parse(w.env.re, base).Ok? {
      Continuation.PiecesUnlessStarved(session, base, []);
      if Continuation.Pieces(session, base, []).Some? {
        Continuation.FewCuts(session.results(base), Continuation.Pieces(session, base, []).value);
        PiecesAllSent(w, f, st, tx, requests, base);
      }
      if forest(base) != [] {
        UnflattenInvertsFlat(forest(base));
        Continuation.SomeNodes(forest(base));
      }
    }
  }

  lemma SessionShows(w: World, f: Setup, s: Snap, tx: nat -> int64, requests: nat -> int64, b: Bytes)
    requires Inv(s, f.root) && Size(Visible(w.env, s, f.root, f.auth, b)) <= MAX_INT64
    ensures SessionServer(w, f, s, tx, requests).results(b) == Flat(Visible(w.env, s, f.root, f.auth, b))
  {
    hide Inv, Visible, Flat, Size;
  }

  /** Two servers that answer alike deliver the same pieces. */
  lemma SameServers(w: World, f: Setup, s: Snap, forest: Bytes -> seq<Rose>, budget: nat, tx: nat -> int64,
                    requests: nat -> int64, srv: Continuation.Server, base: Bytes)
    requires Inv(s, f.root) && budget == f.budget
    requires forall b :: forest(b) == Visible(w.env, s, f.root, f.auth, b) && Size(forest(b)) <= MAX_INT64
    requires srv == Continuation.ServerOf(forest, _ => budget, Measure(budget, tx, requests))
    ensures var session := SessionServer(w, f, s, tx, requests);
            && Continuation.Pieces(srv, base, []) == Continuation.Pieces(session, base, [])
            && (Continuation.Starves(srv, base) <==> Continuation.Starves(session, base))
  {
    hide Inv, Visible, Flat, Size, Continuation.Pieces, Measure, Continuation.Sent, SessionServer;
    var session := SessionServer(w, f, s, tx, requests);
    SessionShows(w, f, s, tx, requests, base);
    assert srv.results(base) == session.results(base) by {
      Continuation.ServerSound(forest, _ => budget, Measure(budget, tx, requests), base);
    }
    forall round: nat, k: nat | k <= |srv.results(base)|
      ensures Continuation.Sent(srv, round, base, k) == Continuation.Sent(session, round, base, k)
    {
      SentSame(w, f, s, forest, budget, tx, requests, srv, base, round, k);
    }
    PiecesSame(srv, session, base, []);
    assert forall round: nat, k: nat :: Continuation.Starved(srv, base, round, k) <==> Continuation.Starved(session, base, round, k);
  }

  lemma SentSame(w: World, f: Setup, s: Snap, forest: Bytes -> seq<Rose>, budget: nat, tx: nat -> int64,
                 requests: nat -> int64, srv: Continuation.Server, base: Bytes, round: nat, k: nat)
    requires Inv(s, f.root) && budget == f.budget
    requires forall b :: forest(b) == Visible(w.env, s, f.root, f.auth, b) && Size(forest(b)) <= MAX_INT64
    requires srv == Continuation.ServerOf(forest, _ => budget, Measure(budget, tx, requests))
    requires k <= |srv.results(base)|
    ensures k <= |SessionServer(w, f, s, tx, requests).results(base)|
    ensures Continuation.Sent(srv, round, base, k) == Continuation.Sent(SessionServer(w, f, s, tx, requests), round, base, k)
  {
    hide Inv, Visible, Flat, Size, Measure, Delivered;
  }

  lemma {:induction false} PiecesSame(srv: Continuation.Server, srv': Continuation.Server, base: Bytes,
                                      done: seq<Continuation.Fetch>)
    requires srv.results(base) == srv'.results(base)
    requires forall round: nat, k: nat :: k <= |srv.results(base)| ==>
               Continuation.Sent(srv, round, base, k) == Continuation.Sent(srv', round, base, k)
    ensures Continuation.Pieces(srv, base, done) == Continuation.Pieces(srv', base, done)
    decreases |srv.results(base)| - Continuation.Reached(done), if done == [] then 1 else 0
  {
    hide Continuation.Sent;
    var c := Continuation.Reached(done);
    if !(c > |srv.results(base)| || (c == |srv.results(base)| && done != [])) {
      var r := Continuation.Sent(srv, |done|, base, c);
      if r.Some? {
        var next := Continuation.Fetch(c, r.value);
        Continuation.SentInside(srv, |done|, base, c);
        Continuation.ReachedSnoc(done, next);
        PiecesSame(srv, srv', base, done + [next]);
      }
    }
  }

  lemma PiecesAllSent(w: World, f: Setup, st: State, tx: nat -> int64, requests: nat -> int64, base: Bytes)
    requires Inv(st.s, f.root) && CleanBase(base) && Parse(w.env.re, base).Ok?
    requires Size(Visible(w.env, st.s, f.root, f.auth, base)) <= MAX_INT64
    requires Continuation.Pieces(SessionServer(w, f, st.s, tx, requests), base, []).Some?
    ensures AllSent(w, f, st, tx, requests, base, Continuation.Pieces(SessionServer(w, f, st.s, tx, requests), base, []).value)
  {
    hide Inv, Visible, Flat, Size, Continuation.Pieces, Continuation.Sent, SessionServer, GetEffect, Parse, CleanBase,
         ResumeExpression;
    var srv := SessionServer(w, f, st.s, tx, requests);
    var all := Continuation.Pieces(srv, base, []).value;
    SessionShows(w, f, st.s, tx, requests, base);
    forall i | 0 <= i < |all|
      ensures SentAt(w, f, st, tx, requests, base, all, i)
    {
      PiecesAreSent(srv, base, [], i);
      PageIsSent(w, f, st, st, tx, requests, i, base, all[i].start,
                 [Response(tx(i), requests(i), false, None, all[i].nodes)]);
    }
  }
}
