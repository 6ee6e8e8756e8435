/**
 * The client's side of a truncated result: the queue of continuations
 * (goimpl/cmd/client/continuation.go) and the loop that drains it
 * (goimpl/cmd/client/main.go:324-365), against a server whose tree does not change.
 */
module Continuation {
  import opened Basics
  import opened WireTypes
  import opened Expression
  import opened Flatten
  import opened Fit

  const MAX_FOLLOWUPS: nat := 50

  datatype PendingContinuation = PendingContinuation(expr: Bytes, base: Bytes, idx: int)

  datatype CoveredRange = CoveredRange(start: int, end: int)

  type Coverage = map<Bytes, seq<CoveredRange>>

  predicate IsCovered(covered: Coverage, base: Bytes, idx: int) {
    base in covered && exists i :: 0 <= i < |covered[base]| && covered[base][i].start <= idx < covered[base][i].end
  }

  /** The position of the smallest resume index, the earliest of equals. */
  function Smallest(pending: seq<PendingContinuation>): (b: nat)
    requires pending != []
    ensures b < |pending|
    ensures forall i :: 0 <= i < |pending| ==> pending[b].idx <= pending[i].idx
    ensures forall i :: 0 <= i < b ==> pending[b].idx < pending[i].idx
  {
    if |pending| == 1 then 0
    else
      var n := |pending| - 1;
      var b := Smallest(pending[..n]);
      assert forall i :: 0 <= i < n ==> pending[..n][i] == pending[i];
      if pending[n].idx < pending[b].idx then n else b
  }

  /** What Next returns, and what it leaves pending: covered entries are skipped and dropped. */
  function Pop(pending: seq<PendingContinuation>, covered: Coverage): (Option<PendingContinuation>,
               seq<PendingContinuation>)
    decreases |pending|
  {
    if pending == [] then (None, [])
    else
      var b := Smallest(pending);
      var rest := pending[..b] + pending[b + 1..];
      if IsCovered(covered, pending[b].base, pending[b].idx) then Pop(rest, covered)
      else (Some(pending[b]), rest)
  }

  class ContinuationQueue {
    var pending: seq<PendingContinuation>
    var seen: set<Bytes>
    var covered: Coverage

    constructor ()
      ensures pending == [] && seen == {} && covered == map[]
    {
      pending, seen, covered := [], {}, map[];
    }

    method Add(expr: Bytes) returns (queued: bool)
      modifies this
      ensures covered == old(covered) && seen == old(seen) + {expr}
      ensures var (base, idx) := SplitResumeSuffix(expr);
              && queued == (expr !in old(seen) && !IsCovered(covered, base, idx))
              && pending == old(pending) + (if queued then [PendingContinuation(expr, base, idx)] else [])
    {
      if expr in seen {
        return false;
      }
      seen := seen + {expr};
      var (base, idx) := SplitResumeSuffix(expr);
      var done := Covered(base, idx);
      if done {
        return false;
      }
      pending := pending + [PendingContinuation(expr, base, idx)];
      return true;
    }

    method Next() returns (expr: Option<Bytes>)
      modifies this
      ensures seen == old(seen) && covered == old(covered)
      ensures var (next, rest) := Pop(old(pending), covered);
              pending == rest && expr == (if next.Some? then Some(next.value.expr) else None)
    {
      while pending != []
        invariant seen == old(seen) && covered == old(covered)
        invariant Pop(pending, covered) == Pop(old(pending), covered)
        decreases |pending|
      {
        var best := Best();
        var next := pending[best];
        pending := pending[..best] + pending[best + 1..];
        var done := Covered(next.base, next.idx);
        if !done {
          return Some(next.expr);
        }
      }
      return None;
    }

    /** Next's scan for the smallest index. */
    method Best() returns (best: nat)
      requires pending != []
      ensures best == Smallest(pending)
    {
      best := 0;
      for i := 1 to |pending|
        invariant best == Smallest(pending[..i])
      {
        assert pending[..i + 1][..i] == pending[..i];
        if pending[i].idx < pending[best].idx {
          best := i;
        }
      }
      assert pending[..|pending|] == pending;
    }

    method MarkCovered(expr: Bytes, count: nat)
      modifies this
      ensures pending == old(pending) && seen == old(seen)
      ensures covered == Marked(old(covered), expr, count)
    {
      if count == 0 {
        return;
      }
      var (base, resume) := SplitResumeSuffix(expr);
      var ranges := if base in covered then covered[base] else [];
      covered := covered[base := ranges + [CoveredRange(resume, resume + count)]];
    }

    method Covered(base: Bytes, idx: int) returns (done: bool)
      ensures done == IsCovered(covered, base, idx)
    {
      if base !in covered {
        return false;
      }
      var ranges := covered[base];
      for i := 0 to |ranges|
        invariant forall j :: 0 <= j < i ==> !(ranges[j].start <= idx < ranges[j].end)
      {
        if idx >= ranges[i].start && idx < ranges[i].end {
          return true;
        }
      }
      return false;
    }
  }

  function Marked(covered: Coverage, expr: Bytes, count: nat): Coverage {
    if count == 0 then covered
    else
      var (base, resume) := SplitResumeSuffix(expr);
      var ranges := if base in covered then covered[base] else [];
      covered[base := ranges + [CoveredRange(resume, resume + count)]]
  }

  lemma MarkedCovers(covered: Coverage, expr: Bytes, count: nat, b: Bytes, idx: int)
    ensures var (base, resume) := SplitResumeSuffix(expr);
            IsCovered(Marked(covered, expr, count), b, idx) <==>
              IsCovered(covered, b, idx) || (b == base && resume <= idx < resume + count)
  {
    var (base, resume) := SplitResumeSuffix(expr);
    var after := Marked(covered, expr, count);
    if count > 0 && b == base {
      var ranges := if base in covered then covered[base] else [];
      assert after[base][|ranges|] == CoveredRange(resume, resume + count);
      assert forall i :: 0 <= i < |ranges| ==> after[base][i] == ranges[i];
    }
  }

  /** pending without its entry b. */
  function Rest(pending: seq<PendingContinuation>, b: nat): seq<PendingContinuation>
    requires b < |pending|
  {
    pending[..b] + pending[b + 1..]
  }

  lemma RestParts(pending: seq<PendingContinuation>, b: nat, p: PendingContinuation)
    requires b < |pending|
    ensures |Rest(pending, b)| == |pending| - 1
    ensures p in pending <==> p == pending[b] || p in Rest(pending, b)
  {
    var rest := Rest(pending, b);
    assert forall i :: 0 <= i < |rest| ==> rest[i] == pending[if i < b then i else i + 1];
    if p in pending {
      var i :| 0 <= i < |pending| && pending[i] == p;
      if i < b {
        assert rest[i] == p;
      } else if i > b {
        assert rest[i - 1] == p;
      }
    }
  }

  /** The entry taken is one not covered; what stays is what else was pending, less covered entries. */
  lemma {:induction false} PopSpec(pending: seq<PendingContinuation>, covered: Coverage)
    ensures var (next, rest) := Pop(pending, covered);
            && |rest| <= |pending| && (next.Some? ==> |rest| < |pending|)
            && (forall p :: p in rest ==> p in pending)
            && (next.None? ==> forall p :: p in pending ==> IsCovered(covered, p.base, p.idx))
            && (next.Some? ==>
                  && next.value in pending && !IsCovered(covered, next.value.base, next.value.idx)
                  && forall p :: p in pending ==> p in rest || p == next.value || IsCovered(covered, p.base, p.idx))
    decreases |pending|
  {
    if pending != [] {
      hide IsCovered, Rest, Smallest;
      var b := Smallest(pending);
      PopUnfolds(pending, covered);
      forall p: PendingContinuation
        ensures p in pending <==> p == pending[b] || p in Rest(pending, b)
      {
        RestParts(pending, b, p);
      }
      RestParts(pending, b, pending[b]);
      hide Pop;
      PopSpec(Rest(pending, b), covered);
    }
  }

  lemma PopUnfolds(pending: seq<PendingContinuation>, covered: Coverage)
    requires pending != []
    ensures var b := Smallest(pending);
            Pop(pending, covered) ==
              if IsCovered(covered, pending[b].base, pending[b].idx) then Pop(Rest(pending, b), covered)
              else (Some(pending[b]), Rest(pending, b))
  {
    hide IsCovered;
  }

  /** Entry b is the smallest of those not covered, and the earliest of equals. */
  ghost predicate FirstSmallest(pending: seq<PendingContinuation>, covered: Coverage, b: nat) {
    && b < |pending| && !IsCovered(covered, pending[b].base, pending[b].idx)
    && forall i :: 0 <= i < |pending| && !IsCovered(covered, pending[i].base, pending[i].idx) ==>
         pending[b].idx <= pending[i].idx && (i < b ==> pending[b].idx < pending[i].idx)
  }

  lemma RestAt(pending: seq<PendingContinuation>, b: nat, i: nat)
    requires b < |pending| && i < |pending| && i != b
    ensures var j := if i < b then i else i - 1; j < |Rest(pending, b)| && Rest(pending, b)[j] == pending[i]
  {
  }

  lemma FirstSmallestOfRest(pending: seq<PendingContinuation>, covered: Coverage, c: nat, d: nat)
    requires c < |pending| && IsCovered(covered, pending[c].base, pending[c].idx)
    requires FirstSmallest(Rest(pending, c), covered, d)
    ensures FirstSmallest(pending, covered, if d < c then d else d + 1)
    ensures pending[if d < c then d else d + 1] == Rest(pending, c)[d]
  {
    var b := if d < c then d else d + 1;
    RestParts(pending, c, pending[c]);
    RestAt(pending, c, b);
    hide IsCovered, Rest;
    forall i | 0 <= i < |pending| && !IsCovered(covered, pending[i].base, pending[i].idx)
      ensures pending[b].idx <= pending[i].idx && (i < b ==> pending[b].idx < pending[i].idx)
    {
      RestAt(pending, c, i);
    }
  }

  /** That is the entry taken. */
  lemma {:induction false} PopTakesFirstSmallest(pending: seq<PendingContinuation>, covered: Coverage) returns (b: nat)
    requires Pop(pending, covered).0.Some?
    ensures FirstSmallest(pending, covered, b) && Pop(pending, covered).0.value == pending[b]
    decreases |pending|
  {
    hide IsCovered, Rest;
    b := Smallest(pending);
    PopUnfolds(pending, covered);
    RestParts(pending, b, pending[b]);
    if IsCovered(covered, pending[b].base, pending[b].idx) {
      hide FirstSmallest, Pop;
      var d := PopTakesFirstSmallest(Rest(pending, b), covered);
      FirstSmallestOfRest(pending, covered, b, d);
      b := if d < b then d else d + 1;
    }
  }

  // --- the server -------------------------------------------------------------------

  /**
   * A server whose tree stays as it is: the flattened result of each base
   * expression, and the size budget and message sizes each round happens to have.
   */
  datatype Server = Server(
    results: Bytes -> seq<WireNode>,
    budget: nat -> int,
    measure: nat -> seq<WireNode> -> int)

  datatype Reply =
    | Nodes(nodes: seq<WireNode>)   // a Response with these nodes
    | Failed                        // a Response with error set: it carries no nodes
    | Silence                       // neither the remainder nor a window of it fits, so nothing is sent

  /** What a round answers to a resume index in range. */
  function Sent(srv: Server, round: nat, base: Bytes, idx: nat): Option<seq<WireNode>>
    requires idx <= |srv.results(base)|
  {
    Delivered(srv.results(base), idx, base, srv.budget(round), srv.measure(round))
  }

  /** handleGet and sendFittedNodes: resolve the expression, fit the remainder, reply, or stay silent where nothing fits. */
  method Serve(srv: Server, round: nat, expr: Bytes) returns (r: Reply)
    ensures var (base, idx) := SplitResumeSuffix(expr);
            if idx < 0 || idx > |srv.results(base)| then r == Failed
            else match Sent(srv, round, base, idx)
                 case None => r == Silence
                 case Some(nodes) => r == Nodes(nodes)
  {
    hide SplitResumeSuffix, Delivered;
    var (base, idx) := SplitResumeSuffix(expr);
    var flat := srv.results(base);
    if idx < 0 || idx > |flat| {
      return Failed;
    }
    var fitted := Deliver(flat, idx, base, srv.budget(round), srv.measure(round));
    if fitted.None? {
      return Silence;
    }
    return Nodes(fitted.value);
  }

  // --- draining the queue -------------------------------------------------------------

  datatype Fetch = Fetch(start: int, nodes: seq<WireNode>)

  datatype Outcome =
    | Complete    // the queue ran empty with every pointer followed
    | Capped      // the queue ran empty, but a pointer was dropped because of the limit
    | NoReply     // a request was never answered

  /** Every index after 0 is pointed at from before it. */
  ghost predicate Linked(flat: seq<WireNode>) {
    forall k :: 0 < k < |flat| ==> PointedAtBefore(flat, k)
  }

  ghost predicate PointedAtBefore(flat: seq<WireNode>, k: int) {
    exists i, f :: 0 <= i < k && i < |flat| && PointsAt(flat, i, f, k)
  }

  /** No index is pointed at from two places. */
  ghost predicate Once(flat: seq<WireNode>) {
    forall i, f, j, g, k ::
      0 <= i < |flat| && 0 <= j < |flat| && PointsAt(flat, i, f, k) && PointsAt(flat, j, g, k) ==> i == j && f == g
  }

  lemma FlatIsLinked(ts: seq<Rose>)
    requires Size(ts) <= MAX_INT64
    ensures Linked(Flat(ts)) && Once(Flat(ts))
  {
    forall k | 0 < k < Size(ts)
      ensures PointedAtBefore(Flat(ts), k)
    {
      SourceInRange(ts, k);
      var (i, f) := Source(ts, k);
      OnePointerEach(ts, i, f, k);
    }
    forall i, f, j, g, k | 0 <= i < Size(ts) && 0 <= j < Size(ts) && PointsAt(Flat(ts), i, f, k) && PointsAt(Flat(ts), j, g, k)
      ensures i == j && f == g
    {
      OnePointerEach(ts, i, f, k);
      OnePointerEach(ts, j, g, k);
    }
  }

  /** How many nodes the fetches delivered. */
  ghost function Reached(fetches: seq<Fetch>): nat {
    if fetches == [] then 0 else Reached(fetches[..|fetches| - 1]) + |fetches[|fetches| - 1].nodes|
  }

  /** Each fetch starts where the one before it ended, and delivers one window of the result. */
  ghost predicate Tiles(fetches: seq<Fetch>, flat: seq<WireNode>, base: Bytes) {
    fetches != [] ==>
      var init, last := fetches[..|fetches| - 1], fetches[|fetches| - 1];
      && Tiles(init, flat, base)
      && last.start == Reached(init)
      && last.start + |last.nodes| <= |flat|
      && last.nodes == Window(flat, last.start, |last.nodes|, base)
      && (flat != [] ==> last.nodes != [])
  }

  /** The delivered nodes in order, their continuation pointers turned back into offsets. */
  ghost function Reassemble(fetches: seq<Fetch>, base: Bytes): seq<WireNode> {
    if fetches == [] then []
    else
      var last := fetches[|fetches| - 1];
      Reassemble(fetches[..|fetches| - 1], base)
        + (if last.start >= 0 then UnfixNodes(last.nodes, last.start, base) else last.nodes)
  }

  lemma {:induction false} TilesReassemble(fetches: seq<Fetch>, flat: seq<WireNode>, base: Bytes)
    requires Tiles(fetches, flat, base) && CleanBase(base) && Relative(flat)
    ensures Reached(fetches) <= |flat| && Reassemble(fetches, base) == flat[..Reached(fetches)]
    ensures flat != [] ==> |fetches| <= Reached(fetches)
  {
    if fetches != [] {
      var init, last := fetches[..|fetches| - 1], fetches[|fetches| - 1];
      TilesReassemble(init, flat, base);
      WindowReadsBack(flat, last.start, |last.nodes|, base);
    }
  }

  lemma TilesExtend(fetches: seq<Fetch>, flat: seq<WireNode>, base: Bytes, last: Fetch)
    requires Tiles(fetches, flat, base) && last.start == Reached(fetches)
    requires last.start + |last.nodes| <= |flat| && last.nodes == Window(flat, last.start, |last.nodes|, base)
    requires flat != [] ==> last.nodes != []
    ensures Tiles(fetches + [last], flat, base)
    ensures Reached(fetches + [last]) == last.start + |last.nodes|
  {
    assert (fetches + [last])[..|fetches|] == fetches;
  }

  // --- what the rounds deliver ---------------------------------------------------------

  /** A pointer of the window [a, c), before place s, leads to index k past its end. */
  ghost predicate CutFrom(flat: seq<WireNode>, a: nat, c: nat, s: nat, k: int) {
    c <= k && exists i, f :: a <= i < c && i < |flat| && Place(i, f) < s && PointsAt(flat, i, f, k)
  }

  ghost function CutSet(flat: seq<WireNode>, a: nat, c: nat, s: nat): set<int> {
    set k | 0 <= k < |flat| && CutFrom(flat, a, c, s, k)
  }

  /** The indices that pointers of the delivered windows lead to from across an end: one continuation for each. */
  ghost function Cuts(flat: seq<WireNode>, fetches: seq<Fetch>): set<int> {
    if fetches == [] then {}
    else
      var last := fetches[|fetches| - 1];
      Cuts(flat, fetches[..|fetches| - 1])
        + (if last.start >= 0 then CutSet(flat, last.start, last.start + |last.nodes|, 2 * (last.start + |last.nodes|)) else {})
  }

  lemma CutsSnoc(flat: seq<WireNode>, fetches: seq<Fetch>, last: Fetch)
    ensures Cuts(flat, fetches) <= Cuts(flat, fetches + [last])
    ensures last.start >= 0 ==>
              var end := last.start + |last.nodes|;
              Cuts(flat, fetches + [last]) == Cuts(flat, fetches) + CutSet(flat, last.start, end, 2 * end)
  {
    hide CutSet;
    assert (fetches + [last])[..|fetches|] == fetches;
  }

  lemma {:induction false} CutsInside(flat: seq<WireNode>, fetches: seq<Fetch>, k: int)
    requires k in Cuts(flat, fetches) && Relative(flat)
    ensures 0 < k < |flat|
  {
    hide Relative;
    var init, last := fetches[..|fetches| - 1], fetches[|fetches| - 1];
    if k in Cuts(flat, init) {
      CutsInside(flat, init, k);
    } else {
      assert CutFrom(flat, last.start, last.start + |last.nodes|, 2 * (last.start + |last.nodes|), k);
    }
  }

  /** No more continuations than indices to continue from. */
  lemma FewCuts(flat: seq<WireNode>, fetches: seq<Fetch>)
    requires Relative(flat)
    ensures |Cuts(flat, fetches)| <= |flat|
  {
    hide Relative, Cuts;
    forall k | k in Cuts(flat, fetches)
      ensures 0 < k < |flat|
    {
      CutsInside(flat, fetches, k);
    }
    CountBound(Cuts(flat, fetches), |flat|);
  }

  lemma SubsetSize<T>(a: set<T>, b: set<T>)
    requires a <= b
    ensures |a| <= |b|
  {
    assert b == a + (b - a);
  }

  lemma ReachedSnoc(fetches: seq<Fetch>, last: Fetch)
    ensures Reached(fetches + [last]) == Reached(fetches) + |last.nodes|
  {
    assert (fetches + [last])[..|fetches|] == fetches;
  }

  /**
   * After the fetches done, what the rounds deliver until the end of the result, each
   * from where the one before it ended. None where some round finds nothing that fits.
   */
  ghost function Pieces(srv: Server, base: Bytes, done: seq<Fetch>): Option<seq<Fetch>>
    decreases |srv.results(base)| - Reached(done), if done == [] then 1 else 0
  {
    var flat, c := srv.results(base), Reached(done);
    if c > |flat| || (c == |flat| && done != []) then Some(done)
    else
      match Sent(srv, |done|, base, c)
      case None => None
      case Some(nodes) =>
        ReachedSnoc(done, Fetch(c, nodes));
        Pieces(srv, base, done + [Fetch(c, nodes)])
  }

  /** Some round finds that of some remainder nothing fits. */
  ghost predicate Starves(srv: Server, base: Bytes) {
    exists round, idx :: Starved(srv, base, round, idx)
  }

  ghost predicate Starved(srv: Server, base: Bytes, round: nat, idx: nat) {
    idx <= |srv.results(base)| && Sent(srv, round, base, idx).None?
  }

  /** Only then do the pieces break off. */
  lemma {:induction false} PiecesUnlessStarved(srv: Server, base: Bytes, done: seq<Fetch>)
    ensures Pieces(srv, base, done).None? ==> Starves(srv, base)
    decreases |srv.results(base)| - Reached(done), if done == [] then 1 else 0
  {
    hide Sent, Starves;
    var flat, c := srv.results(base), Reached(done);
    if !(c > |flat| || (c == |flat| && done != [])) {
      var r := Sent(srv, |done|, base, c);
      if r.None? {
        StarvesAt(srv, base, |done|, c);
      } else {
        SentInside(srv, |done|, base, c);
        ReachedSnoc(done, Fetch(c, r.value));
        PiecesUnlessStarved(srv, base, done + [Fetch(c, r.value)]);
      }
    }
  }

  lemma StarvesAt(srv: Server, base: Bytes, round: nat, idx: nat)
    requires idx <= |srv.results(base)| && Sent(srv, round, base, idx).None?
    ensures Starves(srv, base)
  {
    assert Starved(srv, base, round, idx);
  }

  /** If every single node fits, with its pointers as continuations, and the empty reply does, no round starves. */
  lemma SingleNodesSuffice(srv: Server, base: Bytes)
    requires Relative(srv.results(base))
    requires forall round: nat :: srv.measure(round)([]) <= srv.budget(round)
    requires forall round: nat, idx: nat :: idx < |srv.results(base)| ==>
               srv.measure(round)(Window(srv.results(base), idx, 1, base)) <= srv.budget(round)
    ensures !Starves(srv, base)
  {
    hide Relative, Window;
    if Starves(srv, base) {
      var round: nat, idx: nat :| Starved(srv, base, round, idx);
      var flat := srv.results(base);
      assert flat[|flat|..] == [];
      if idx < |flat| {
        NothingSent(flat, idx, base, srv.budget(round), srv.measure(round), 1);
      }
    }
  }

  /** The pieces begin with what is done, and cut what it cut. */
  lemma {:induction false} PiecesExtend(srv: Server, base: Bytes, done: seq<Fetch>)
    ensures Pieces(srv, base, done).Some? ==>
              Cuts(srv.results(base), done) <= Cuts(srv.results(base), Pieces(srv, base, done).value)
    decreases |srv.results(base)| - Reached(done), if done == [] then 1 else 0
  {
    hide Sent, Cuts;
    var flat, c := srv.results(base), Reached(done);
    if !(c > |flat| || (c == |flat| && done != [])) && Sent(srv, |done|, base, c).Some? {
      var last := Fetch(c, Sent(srv, |done|, base, c).value);
      SentInside(srv, |done|, base, c);
      ReachedSnoc(done, last);
      CutsSnoc(flat, done, last);
      PiecesExtend(srv, base, done + [last]);
    }
  }

  lemma SentInside(srv: Server, round: nat, base: Bytes, idx: nat)
    requires idx <= |srv.results(base)| && Sent(srv, round, base, idx).Some?
    ensures var nodes := Sent(srv, round, base, idx).value;
            && idx + |nodes| <= |srv.results(base)| && (idx < |srv.results(base)| ==> nodes != [])
  {
    hide Chosen;
  }

  /** Whatever budget each round has, the pieces tile the result and reassemble to it. */
  lemma {:induction false} PiecesTile(srv: Server, base: Bytes, done: seq<Fetch>)
    requires Relative(srv.results(base)) && Tiles(done, srv.results(base), base) && Reached(done) <= |srv.results(base)|
    requires Pieces(srv, base, done).Some?
    ensures var all := Pieces(srv, base, done).value;
            all != [] && Tiles(all, srv.results(base), base) && Reached(all) == |srv.results(base)|
    decreases |srv.results(base)| - Reached(done), if done == [] then 1 else 0
  {
    hide Sent, Relative, Window, Tiles;
    var flat, c := srv.results(base), Reached(done);
    if !(c == |flat| && done != []) {
      var nodes := Sent(srv, |done|, base, c).value;
      SentIsWindow(srv, |done|, base, c);
      SentInside(srv, |done|, base, c);
      ReachedSnoc(done, Fetch(c, nodes));
      TilesExtend(done, flat, base, Fetch(c, nodes));
      PiecesTile(srv, base, done + [Fetch(c, nodes)]);
    }
  }

  lemma SentIsWindow(srv: Server, round: nat, base: Bytes, idx: nat)
    requires idx <= |srv.results(base)| && Sent(srv, round, base, idx).Some? && Relative(srv.results(base))
    ensures var nodes := Sent(srv, round, base, idx).value;
            idx + |nodes| <= |srv.results(base)| && nodes == Window(srv.results(base), idx, |nodes|, base)
  {
    hide Relative, Chosen, Window;
    DeliveredIsWindow(srv.results(base), idx, base, srv.budget(round), srv.measure(round));
  }

  /**
   * Fetching in pieces equals fetching whole: unless some round starves, the pieces read
   * back, by their pointers, as exactly the result.
   */
  lemma PiecesAreWhole(srv: Server, base: Bytes)
    requires CleanBase(base) && Relative(srv.results(base)) && !Starves(srv, base)
    ensures var flat := srv.results(base);
            && Pieces(srv, base, []).Some?
            && var all := Pieces(srv, base, []).value;
               && Tiles(all, flat, base) && Reassemble(all, base) == flat && (flat != [] ==> |all| <= |flat|)
               && |Cuts(flat, all)| <= |flat|
  {
    hide Sent, CleanBase, Relative, Starves, Pieces, Cuts, Reassemble;
    PiecesUnlessStarved(srv, base, []);
    PiecesTile(srv, base, []);
    TilesReassemble(Pieces(srv, base, []).value, srv.results(base), base);
    FewCuts(srv.results(base), Pieces(srv, base, []).value);
  }

  // --- what the queue holds between fetches -----------------------------------------

  function Entry(base: Bytes, k: nat): PendingContinuation {
    PendingContinuation(ResumeExpression(base, k), base, k)
  }

  /** The place of a pointer in reading order: node by node, firstChild before nextSibling. */
  function Place(i: nat, f: Field): nat {
    2 * i + (if f.First? then 0 else 1)
  }

  /** Some pointer before place s leads to index k. */
  ghost predicate Crosses(flat: seq<WireNode>, s: nat, k: int) {
    exists i, f :: 0 <= i < |flat| && Place(i, f) < s && PointsAt(flat, i, f, k)
  }

  /** The result [0, c) has been delivered and its pointers before place s have been queued. */
  ghost predicate Ready(pending: seq<PendingContinuation>, seen: set<Bytes>, covered: Coverage,
                        base: Bytes, flat: seq<WireNode>, c: nat, s: nat) {
    && (forall p :: p in pending ==> p.idx > 0 && p == Entry(base, p.idx) && p.idx < |flat|)
    && (forall b, k :: IsCovered(covered, b, k) <==> b == base && 0 <= k < c)
    && (forall k: nat :: 0 < k && ResumeExpression(base, k) in seen && k <= MAX_INT64 ==> k < c || Entry(base, k) in pending)
    && (forall k: nat :: c <= k < |flat| && Crosses(flat, s, k) ==> Entry(base, k) in pending)
  }

  /** Every continuation of this base that has been queued leads to one of the indices of added. */
  ghost predicate Counted(added: set<int>, seen: set<Bytes>, base: Bytes, n: nat) {
    forall k: nat :: 0 < k < n && ResumeExpression(base, k) in seen ==> k in added
  }

  /** The indices of before are pointed at from before index a. */
  ghost predicate Earlier(flat: seq<WireNode>, before: set<int>, a: nat) {
    forall k :: k in before ==> exists i, f :: 0 <= i < a && i < |flat| && PointsAt(flat, i, f, k)
  }

  lemma {:induction false} CutsAreEarlier(flat: seq<WireNode>, base: Bytes, fetches: seq<Fetch>)
    requires Tiles(fetches, flat, base)
    ensures Earlier(flat, Cuts(flat, fetches), Reached(fetches))
  {
    hide Window, PointsAt;
    if fetches != [] {
      var init, last := fetches[..|fetches| - 1], fetches[|fetches| - 1];
      CutsAreEarlier(flat, base, init);
      forall k | k in Cuts(flat, fetches)
        ensures exists i, f :: 0 <= i < Reached(fetches) && i < |flat| && PointsAt(flat, i, f, k)
      {
        if k in Cuts(flat, init) {
          var i, f :| 0 <= i < Reached(init) && i < |flat| && PointsAt(flat, i, f, k);
        } else {
          var end := last.start + |last.nodes|;
          assert CutFrom(flat, last.start, end, 2 * end, k);
          var i, f :| last.start <= i < end && i < |flat| && Place(i, f) < 2 * end && PointsAt(flat, i, f, k);
        }
      }
    }
  }

  /** The pointer at (i, f) cuts index k off, and no earlier one has. */
  lemma CutNext(flat: seq<WireNode>, before: set<int>, a: nat, c: nat, i: nat, f: Field, k: nat)
    requires Once(flat) && Earlier(flat, before, a) && a <= i < c <= k < |flat| && PointsAt(flat, i, f, k)
    ensures var s := Place(i, f);
            && k !in before + CutSet(flat, a, c, s)
            && CutSet(flat, a, c, s + 1) == CutSet(flat, a, c, s) + {k}
  {
    hide Once, Earlier;
    var s := Place(i, f);
    if k in CutSet(flat, a, c, s) {
      var j, g :| a <= j < c && j < |flat| && Place(j, g) < s && PointsAt(flat, j, g, k);
      OnlyOne(flat, i, f, j, g, k);
    }
    if k in before {
      var j, g := EarlierPointer(flat, before, a, k);
      OnlyOne(flat, i, f, j, g, k);
    }
    forall m | 0 <= m < |flat|
      ensures CutFrom(flat, a, c, s + 1, m) <==> CutFrom(flat, a, c, s, m) || m == k
    {
      CutStep(flat, a, c, i, f, m);
    }
  }

  lemma OnlyOne(flat: seq<WireNode>, i: nat, f: Field, j: nat, g: Field, k: int)
    requires Once(flat) && i < |flat| && j < |flat| && PointsAt(flat, i, f, k) && PointsAt(flat, j, g, k)
    ensures i == j && f == g
  {
  }

  lemma EarlierPointer(flat: seq<WireNode>, before: set<int>, a: nat, k: int) returns (i: nat, f: Field)
    requires Earlier(flat, before, a) && k in before
    ensures i < a && i < |flat| && PointsAt(flat, i, f, k)
  {
    i, f :| 0 <= i < a && i < |flat| && PointsAt(flat, i, f, k);
  }

  lemma CutStep(flat: seq<WireNode>, a: nat, c: nat, i: nat, f: Field, m: int)
    requires a <= i < c && i < |flat|
    ensures CutFrom(flat, a, c, Place(i, f) + 1, m) <==>
              CutFrom(flat, a, c, Place(i, f), m) || (c <= m && PointsAt(flat, i, f, m))
  {
    hide PointsAt;
    if c <= m && PointsAt(flat, i, f, m) {
      assert Place(i, f) < Place(i, f) + 1;
    }
  }

  /** A pointer that stays inside the window cuts nothing off. */
  lemma NoCutNext(flat: seq<WireNode>, base: Bytes, a: nat, c: nat, i: nat, f: Field)
    requires a <= i < c <= |flat| && Pointer(flat[i], f).OffsetPointer?
    requires !FixPointer(Pointer(flat[i], f), i, c, base).AbsolutePointer?
    ensures CutSet(flat, a, c, Place(i, f) + 1) == CutSet(flat, a, c, Place(i, f))
  {
    forall m | 0 <= m < |flat|
      ensures CutFrom(flat, a, c, Place(i, f) + 1, m) <==> CutFrom(flat, a, c, Place(i, f), m)
    {
      hide CutFrom;
      CutStep(flat, a, c, i, f, m);
    }
    hide CutFrom;
  }

  lemma CutSetGrows(flat: seq<WireNode>, a: nat, c: nat, s: nat, t: nat)
    requires s <= t
    ensures CutSet(flat, a, c, s) <= CutSet(flat, a, c, t)
  {
    hide PointsAt;
  }

  lemma {:induction false} CountBound(added: set<int>, n: nat)
    requires forall k :: k in added ==> 0 < k < n
    ensures |added| < n || n == 0
    ensures n == 0 ==> added == {}
  {
    if n <= 1 {
      assert forall k :: k !in added;
    } else {
      CountBound(added - {n - 1}, n - 1);
      assert |added| <= |added - {n - 1}| + 1;
    }
  }

  /** With [0, c) delivered and its pointers queued, the next continuation is c itself, or nothing is left. */
  lemma NextIsWhereItStopped(pending: seq<PendingContinuation>, seen: set<Bytes>, covered: Coverage,
                             base: Bytes, flat: seq<WireNode>, c: nat)
    requires Ready(pending, seen, covered, base, flat, c, 2 * c) && Linked(flat) && 0 < c <= |flat|
    ensures var next := Pop(pending, covered).0;
            if c < |flat| then next == Some(Entry(base, c)) else next == None
  {
    hide IsCovered, Pop, ResumeExpression;
    PopSpec(pending, covered);
    if c < |flat| {
      assert PointedAtBefore(flat, c);
      var i, f :| 0 <= i < c && PointsAt(flat, i, f, c);
      assert Place(i, f) < 2 * c;
      assert Crosses(flat, 2 * c, c);
      assert Entry(base, c) in pending && !IsCovered(covered, base, c);
      var b := PopTakesFirstSmallest(pending, covered);
      assert pending[b].idx <= c;
    }
  }

  /** Taking that continuation and marking what its fetch delivered. */
  lemma FetchKeepsReady(pending: seq<PendingContinuation>, seen: set<Bytes>, covered: Coverage,
                        base: Bytes, flat: seq<WireNode>, c: nat, n: nat)
    requires Ready(pending, seen, covered, base, flat, c, 2 * c) && CleanBase(base)
    requires 0 < c < |flat| <= MAX_INT64 && Pop(pending, covered).0 == Some(Entry(base, c)) && n > 0
    ensures Ready(Pop(pending, covered).1, seen, Marked(covered, ResumeExpression(base, c), n), base, flat, c + n, 2 * c)
  {
    PopSpec(pending, covered);
    ResumeSuffixSurvives(base, c);
    var after := Marked(covered, ResumeExpression(base, c), n);
    var rest := Pop(pending, covered).1;
    forall b, k
      ensures IsCovered(after, b, k) <==> b == base && 0 <= k < c + n
    {
      MarkedCovers(covered, ResumeExpression(base, c), n, b, k);
    }
    forall k: nat | k >= c + n && Entry(base, k) in pending
      ensures Entry(base, k) in rest
    {
      assert !IsCovered(covered, base, k);
      assert Entry(base, k) != Entry(base, c);
    }
  }

  /** What one pointer of a delivered node does to the queue. */
  method Follow(q: ContinuationQueue, p: NodePointer, followups: nat) returns (followups': nat, dropped: bool)
    modifies q
    ensures !p.AbsolutePointer? ==> q.pending == old(q.pending) && q.seen == old(q.seen) && followups' == followups && !dropped
    ensures p.AbsolutePointer? && followups >= MAX_FOLLOWUPS ==>
              q.pending == old(q.pending) && q.seen == old(q.seen) && followups' == followups && dropped
    ensures q.covered == old(q.covered)
    ensures p.AbsolutePointer? && followups < MAX_FOLLOWUPS ==>
              var (base, idx) := SplitResumeSuffix(p.expr);
              var queued := p.expr !in old(q.seen) && !IsCovered(q.covered, base, idx);
              && q.seen == old(q.seen) + {p.expr} && !dropped
              && q.pending == old(q.pending) + (if queued then [PendingContinuation(p.expr, base, idx)] else [])
              && followups' == followups + (if queued then 1 else 0)
  {
    followups', dropped := followups, false;
    if !p.AbsolutePointer? {
      return;
    }
    if followups >= MAX_FOLLOWUPS {
      return followups, true;
    }
    var queued := q.Add(p.expr);
    if queued {
      followups' := followups + 1;
    }
  }

  lemma DecimalInjective(j: nat, k: nat)
    requires Decimal(j) == Decimal(k)
    ensures j == k
  {
    DigitsDecimal(j);
    DigitsDecimal(k);
  }

  lemma ResumeInjective(base: Bytes, j: nat, k: nat)
    requires ResumeExpression(base, j) == ResumeExpression(base, k)
    ensures j == k
  {
    assert ResumeExpression(base, j)[|base| + 1..] == Decimal(j);
    assert ResumeExpression(base, k)[|base| + 1..] == Decimal(k);
    DecimalInjective(j, k);
  }

  lemma CrossesNext(flat: seq<WireNode>, i: nat, f: Field)
    requires i < |flat|
    ensures forall m :: Crosses(flat, Place(i, f) + 1, m) <==> Crosses(flat, Place(i, f), m) || PointsAt(flat, i, f, m)
  {
    forall m
      ensures Crosses(flat, Place(i, f) + 1, m) <==> Crosses(flat, Place(i, f), m) || PointsAt(flat, i, f, m)
    {
      if PointsAt(flat, i, f, m) {
        assert Place(i, f) < Place(i, f) + 1;
      }
    }
  }

  /** A pointer that stays inside the window leaves nothing to queue. */
  lemma InsideKeepsReady(pending: seq<PendingContinuation>, seen: set<Bytes>, covered: Coverage,
                         base: Bytes, flat: seq<WireNode>, c: nat, i: nat, f: Field)
    requires Ready(pending, seen, covered, base, flat, c, Place(i, f)) && i < c <= |flat|
    requires !FixPointer(Pointer(flat[i], f), i, c, base).AbsolutePointer? && Pointer(flat[i], f).OffsetPointer?
    ensures Ready(pending, seen, covered, base, flat, c, Place(i, f) + 1)
  {
    hide IsCovered, Crosses;
    CrossesNext(flat, i, f);
  }

  /** A pointer to index k past the window: k is queued, unless it already was. */
  lemma CutKeepsReady(pending: seq<PendingContinuation>, seen: set<Bytes>, covered: Coverage,
                      base: Bytes, flat: seq<WireNode>, c: nat, i: nat, f: Field, k: nat)
    requires Ready(pending, seen, covered, base, flat, c, Place(i, f)) && i < c <= k < |flat| <= MAX_INT64
    requires PointsAt(flat, i, f, k)
    ensures var expr := ResumeExpression(base, k);
            && !IsCovered(covered, base, k)
            && Ready(pending + (if expr in seen then [] else [Entry(base, k)]), seen + {expr}, covered, base, flat, c, Place(i, f) + 1)
  {
    hide IsCovered, Crosses;
    CrossesNext(flat, i, f);
    var expr := ResumeExpression(base, k);
    forall m: nat | ResumeExpression(base, m) == expr
      ensures m == k
    {
      ResumeInjective(base, m, k);
    }
    hide ResumeExpression;
  }

  /** Every pending continuation is one of this base. */
  ghost predicate OfBase(pending: seq<PendingContinuation>, base: Bytes) {
    forall p :: p in pending ==> SplitResumeSuffix(p.expr).0 == base
  }

  predicate PointerOfBase(p: NodePointer, base: Bytes) {
    p.AbsolutePointer? ==> SplitResumeSuffix(p.expr).0 == base
  }

  /** In the window [a, c), up to the pointer at place s, after fetches that cut off the indices of before. */
  ghost predicate Under(pending: seq<PendingContinuation>, seen: set<Bytes>, covered: Coverage, base: Bytes,
                        flat: seq<WireNode>, before: set<int>, a: nat, c: nat, s: nat, followups: nat)
  {
    && Ready(pending, seen, covered, base, flat, c, s) && Earlier(flat, before, a)
    && Counted(before + CutSet(flat, a, c, s), seen, base, |flat|)
    && |before + CutSet(flat, a, c, s)| == followups
  }

  ghost predicate Sound(base: Bytes, flat: seq<WireNode>) {
    CleanBase(base) && Relative(flat) && Linked(flat) && Once(flat)
  }

  /** Past a pointer that stays inside. */
  lemma InsideUnder(pending: seq<PendingContinuation>, seen: set<Bytes>, covered: Coverage, base: Bytes,
                    flat: seq<WireNode>, before: set<int>, a: nat, c: nat, i: nat, f: Field, followups: nat)
    requires Under(pending, seen, covered, base, flat, before, a, c, Place(i, f), followups)
    requires Sound(base, flat) && a <= i < c <= |flat|
    requires !FixPointer(Pointer(flat[i], f), i, c, base).AbsolutePointer?
    ensures Under(pending, seen, covered, base, flat, before, a, c, Place(i, f) + 1, followups)
  {
    hide Ready, Earlier, Counted, CutSet, CleanBase, Linked, Once, IsCovered;
    assert RelativePointer(flat, i, f);
    hide Relative;
    InsideKeepsReady(pending, seen, covered, base, flat, c, i, f);
    NoCutNext(flat, base, a, c, i, f);
  }

  /** A pointer to index k past the window: it has not been met before, so k is queued, or one too many. */
  lemma CutUnder(pending: seq<PendingContinuation>, seen: set<Bytes>, covered: Coverage, base: Bytes,
                 flat: seq<WireNode>, before: set<int>, a: nat, c: nat, i: nat, f: Field, followups: nat, k: nat)
    requires Under(pending, seen, covered, base, flat, before, a, c, Place(i, f), followups)
    requires Sound(base, flat) && a <= i < c <= k < |flat| && PointsAt(flat, i, f, k)
    ensures var expr := ResumeExpression(base, k);
            && expr !in seen && !IsCovered(covered, base, k)
            && Under(pending + [Entry(base, k)], seen + {expr}, covered, base, flat, before, a, c, Place(i, f) + 1, followups + 1)
    ensures followups >= MAX_FOLLOWUPS ==> |before + CutSet(flat, a, c, 2 * c)| > MAX_FOLLOWUPS
  {
    hide Ready, Earlier, CutSet, CleanBase, Linked, Once, IsCovered, ResumeExpression;
    assert |flat| <= MAX_INT64;
    hide Relative;
    var s := Place(i, f);
    var expr := ResumeExpression(base, k);
    CutNext(flat, before, a, c, i, f, k);
    CutKeepsReady(pending, seen, covered, base, flat, c, i, f, k);
    var was, now := before + CutSet(flat, a, c, s), before + CutSet(flat, a, c, s + 1);
    assert now == was + {k};
    forall m: nat | 0 < m < |flat| && ResumeExpression(base, m) in seen + {expr}
      ensures m in now
    {
      if ResumeExpression(base, m) == expr {
        ResumeInjective(base, m, k);
      }
    }
    CutSetGrows(flat, a, c, s + 1, 2 * c);
    SubsetSize(now, before + CutSet(flat, a, c, 2 * c));
  }

  /** Follow, seen from a queue that is ready up to the pointer it follows. */
  method FollowOne(q: ContinuationQueue, p: NodePointer, followups: nat,
                   ghost clean: bool, ghost good: bool, ghost base: Bytes, ghost flat: seq<WireNode>,
                   ghost before: set<int>, ghost a: nat, ghost c: nat, ghost i: nat, ghost f: Field)
      returns (followups': nat, dropped: bool)
    requires followups <= MAX_FOLLOWUPS && (clean ==> OfBase(q.pending, base) && PointerOfBase(p, base))
    requires good ==>
      && Sound(base, flat) && a <= i < c <= |flat| && p == FixPointer(Pointer(flat[i], f), i, c, base)
      && Under(q.pending, q.seen, q.covered, base, flat, before, a, c, Place(i, f), followups)
    modifies q
    ensures followups <= followups' <= MAX_FOLLOWUPS && (clean ==> OfBase(q.pending, base))
    ensures |q.pending| <= |old(q.pending)| + (followups' - followups)
    ensures good && !dropped ==> Under(q.pending, q.seen, q.covered, base, flat, before, a, c, Place(i, f) + 1, followups')
    ensures good && dropped ==> |before + CutSet(flat, a, c, 2 * c)| > MAX_FOLLOWUPS
  {
    hide Under, IsCovered, CleanBase, SplitFirst, Decimal, Sound, CutSet;
    ghost var pending, seen := q.pending, q.seen;
    if good {
      SoundPointer(base, flat, i, f);
      ghost var k := i + Pointer(flat[i], f).delta;
      if p.AbsolutePointer? {
        ResumeSuffixSurvives(base, k);
        CutUnder(pending, seen, q.covered, base, flat, before, a, c, i, f, followups, k);
      } else {
        InsideUnder(pending, seen, q.covered, base, flat, before, a, c, i, f, followups);
      }
    }
    followups', dropped := Follow(q, p, followups);
    assert pending + [] == pending;
  }

  lemma SoundPointer(base: Bytes, flat: seq<WireNode>, i: nat, f: Field)
    requires Sound(base, flat) && i < |flat|
    ensures CleanBase(base) && RelativePointer(flat, i, f) && |flat| <= MAX_INT64
  {
    hide CleanBase, Linked, Once;
  }

  lemma StartReady(covered: Coverage, seen: set<Bytes>, root: Bytes, base: Bytes, flat: seq<WireNode>, n: nat)
    requires CleanBase(base) && SplitResumeSuffix(root) == (base, 0) && covered == map[] && seen == {root}
    ensures Ready([], seen, Marked(covered, root, n), base, flat, n, 0)
  {
    forall b, k
      ensures IsCovered(Marked(covered, root, n), b, k) <==> b == base && 0 <= k < n
    {
      MarkedCovers(covered, root, n, b, k);
    }
    forall k: nat | 0 < k <= MAX_INT64
      ensures ResumeExpression(base, k) !in seen
    {
      ResumeSuffixSurvives(base, k);
    }
  }

  /** The queue before the first fetch holds the root alone; afterwards it is Ready. */
  ghost predicate Between(pending: seq<PendingContinuation>, seen: set<Bytes>, covered: Coverage,
                          root: Bytes, base: Bytes, flat: seq<WireNode>, fetches: seq<Fetch>)
  {
    if fetches == [] then
      pending == [PendingContinuation(root, base, 0)] && seen == {root} && covered == map[]
    else
      Ready(pending, seen, covered, base, flat, Reached(fetches), 2 * Reached(fetches))
      && (flat != [] ==> Reached(fetches) > 0)
  }

  /** What Next returns is always the expression for exactly the first index not yet delivered. */
  lemma PopBetween(pending: seq<PendingContinuation>, seen: set<Bytes>, covered: Coverage,
                   root: Bytes, base: Bytes, flat: seq<WireNode>, fetches: seq<Fetch>)
    requires Between(pending, seen, covered, root, base, flat, fetches) && Tiles(fetches, flat, base)
    requires CleanBase(base) && Relative(flat) && Linked(flat) && SplitResumeSuffix(root) == (base, 0)
    ensures var next := Pop(pending, covered).0;
            if fetches != [] && Reached(fetches) == |flat| then next == None
            else next.Some? && SplitResumeSuffix(next.value.expr) == (base, Reached(fetches))
    ensures Reached(fetches) <= |flat|
  {
    TilesReassemble(fetches, flat, base);
    var c := Reached(fetches);
    if fetches == [] {
      assert !IsCovered(covered, base, 0);
    } else if flat == [] {
      assert forall p :: p !in pending;
      HasMember(pending);
    } else {
      NextIsWhereItStopped(pending, seen, covered, base, flat, c);
      if c < |flat| {
        ResumeSuffixSurvives(base, c);
      }
    }
  }

  /** After that entry is popped and its n nodes marked, only their own pointers remain to be queued. */
  lemma FetchBetween(pending: seq<PendingContinuation>, seen: set<Bytes>, covered: Coverage,
                     root: Bytes, base: Bytes, flat: seq<WireNode>, fetches: seq<Fetch>, n: nat)
    requires Between(pending, seen, covered, root, base, flat, fetches) && Tiles(fetches, flat, base)
    requires CleanBase(base) && Relative(flat) && Linked(flat) && SplitResumeSuffix(root) == (base, 0)
    requires Pop(pending, covered).0.Some? && (flat != [] ==> n > 0)
    ensures var c := Reached(fetches);
            var (next, rest) := Pop(pending, covered);
            Ready(rest, seen, Marked(covered, next.value.expr, n), base, flat, c + n, 2 * c)
  {
    PopBetween(pending, seen, covered, root, base, flat, fetches);
    var c := Reached(fetches);
    if fetches == [] {
      assert !IsCovered(covered, base, 0);
      assert pending[..0] + pending[1..] == [];
      StartReady(covered, seen, root, base, flat, n);
    } else {
      NextIsWhereItStopped(pending, seen, covered, base, flat, c);
      FetchKeepsReady(pending, seen, covered, base, flat, c, n);
    }
  }

  predicate NodesOfBase(nodes: seq<WireNode>, base: Bytes) {
    forall j :: 0 <= j < |nodes| ==> PointerOfBase(nodes[j].firstChild, base) && PointerOfBase(nodes[j].nextSibling, base)
  }

  lemma WindowOfBase(flat: seq<WireNode>, start: nat, n: nat, base: Bytes)
    requires CleanBase(base) && Relative(flat) && start + n <= |flat|
    ensures NodesOfBase(Window(flat, start, n, base), base)
  {
    hide ResumeExpression, SplitResumeSuffix, Window;
    forall j | 0 <= j < n
      ensures PointerOfBase(Window(flat, start, n, base)[j].firstChild, base)
      ensures PointerOfBase(Window(flat, start, n, base)[j].nextSibling, base)
    {
      var i := start + j;
      assert RelativePointer(flat, i, First) && RelativePointer(flat, i, Next);
      ResumeSuffixSurvives(base, i + flat[i].firstChild.delta);
      ResumeSuffixSurvives(base, i + flat[i].nextSibling.delta);
      WindowAt(flat, start, n, base, j);
      assert Pointer(flat[i], First) == flat[i].firstChild && Pointer(flat[i], Next) == flat[i].nextSibling;
    }
  }

  /** The pointers of one reply, node by node. */
  method FollowAll(q: ContinuationQueue, nodes: seq<WireNode>, followups: nat,
                   ghost clean: bool, ghost good: bool, ghost base: Bytes, ghost flat: seq<WireNode>,
                   ghost before: set<int>, ghost start: nat)
      returns (followups': nat, dropped: bool)
    requires followups <= MAX_FOLLOWUPS && (clean ==> OfBase(q.pending, base) && NodesOfBase(nodes, base))
    requires good ==>
      && Sound(base, flat) && start + |nodes| <= |flat| && nodes == Window(flat, start, |nodes|, base)
      && Under(q.pending, q.seen, q.covered, base, flat, before, start, start + |nodes|, 2 * start, followups)
    modifies q
    ensures followups <= followups' <= MAX_FOLLOWUPS && (clean ==> OfBase(q.pending, base))
    ensures |q.pending| <= |old(q.pending)| + (followups' - followups)
    ensures var end := start + |nodes|;
            && (good && !dropped ==> Under(q.pending, q.seen, q.covered, base, flat, before, start, end, 2 * end, followups'))
            && (good && dropped ==> |before + CutSet(flat, start, end, 2 * end)| > MAX_FOLLOWUPS)
  {
    hide Under, Sound, OfBase, PointerOfBase, CutSet;
    followups', dropped := followups, false;
    ghost var c := start + |nodes|;
    for j := 0 to |nodes|
      invariant followups <= followups' <= MAX_FOLLOWUPS && (clean ==> OfBase(q.pending, base))
      invariant |q.pending| <= |old(q.pending)| + (followups' - followups)
      invariant good && !dropped ==> Under(q.pending, q.seen, q.covered, base, flat, before, start, c, 2 * (start + j), followups')
      invariant good && dropped ==> |before + CutSet(flat, start, c, 2 * c)| > MAX_FOLLOWUPS
    {
      hide Under, Sound, OfBase, PointerOfBase, CutSet, Window, FixPointer, SplitResumeSuffix, IsCovered;
      ghost var live, i := good && !dropped, start + j;
      if live {
        WindowAt(flat, start, |nodes|, base, j);
      }
      var d1, d2;
      followups', d1 := FollowOne(q, nodes[j].firstChild, followups', clean, live, base, flat, before, start, c, i, First);
      followups', d2 := FollowOne(q, nodes[j].nextSibling, followups', clean, live && !d1, base, flat, before, start, c, i, Next);
      dropped := dropped || d1 || d2;
    }
  }

  lemma WindowAt(flat: seq<WireNode>, start: nat, n: nat, base: Bytes, j: nat)
    requires start + n <= |flat| && j < n
    ensures Window(flat, start, n, base)[j] == FixNode(flat[start + j], start + j, start + n, base)
  {
  }

  // --- turns ---------------------------------------------------------------------------

  datatype TurnOutcome = Fetched(fetch: Fetch) | Drained | Unanswered

  /** Everything known between turns while no pointer has been dropped. */
  ghost predicate Following(srv: Server, pending: seq<PendingContinuation>, seen: set<Bytes>, covered: Coverage,
                            root: Bytes, fetches: seq<Fetch>, followups: nat)
  {
    var base := SplitResumeSuffix(root).0;
    var flat := srv.results(base);
    && Sound(base, flat) && SplitResumeSuffix(root).1 == 0
    && Tiles(fetches, flat, base) && Between(pending, seen, covered, root, base, flat, fetches)
    && Counted(Cuts(flat, fetches), seen, base, |flat|) && |Cuts(flat, fetches)| == followups
    && Pieces(srv, base, fetches) == Pieces(srv, base, [])
  }

  /** Before the first turn. */
  lemma StartFollowing(srv: Server, root: Bytes)
    requires var (base, start) := SplitResumeSuffix(root); start == 0 && Sound(base, srv.results(base))
    ensures Following(srv, [PendingContinuation(root, SplitResumeSuffix(root).0, 0)], {root}, map[], root, [], 0)
  {
    hide IsCovered, Linked, Once, SplitFirst, Pieces;
    var base := SplitResumeSuffix(root).0;
    var flat := srv.results(base);
    assert |flat| <= MAX_INT64;
    hide Relative;
    forall k: nat | 0 < k < |flat|
      ensures ResumeExpression(base, k) !in {root}
    {
      ResumeSuffixSurvives(base, k);
    }
  }

  /** The entry Next returns, where its fetch starts, and what the round sends: nodes, or nothing. */
  lemma TurnStarts(srv: Server, pending: seq<PendingContinuation>, seen: set<Bytes>, covered: Coverage,
                   root: Bytes, fetches: seq<Fetch>, followups: nat)
    requires Following(srv, pending, seen, covered, root, fetches, followups)
    ensures var base := SplitResumeSuffix(root).0;
            var (flat, c, next) := (srv.results(base), Reached(fetches), Pop(pending, covered).0);
            && c <= |flat|
            && (if fetches != [] && c == |flat| then next == None && Pieces(srv, base, []) == Some(fetches)
                else next.Some? && SplitResumeSuffix(next.value.expr) == (base, c))
  {
    hide Pop, Between, IsCovered, CleanBase, SplitResumeSuffix, Relative, Linked, Once, Counted, Cuts, Tiles;
    var base := SplitResumeSuffix(root).0;
    PopBetween(pending, seen, covered, root, base, srv.results(base), fetches);
  }

  /** After a turn that was sent nodes, and has marked them, the queue is ready for their pointers. */
  lemma TurnFetches(srv: Server, pending: seq<PendingContinuation>, seen: set<Bytes>, covered: Coverage,
                    root: Bytes, fetches: seq<Fetch>, followups: nat)
    requires Following(srv, pending, seen, covered, root, fetches, followups)
    requires var base := SplitResumeSuffix(root).0;
             && Reached(fetches) <= |srv.results(base)| && Pop(pending, covered).0.Some?
             && Sent(srv, |fetches|, base, Reached(fetches)).Some?
    ensures var base := SplitResumeSuffix(root).0;
            var (flat, c, (next, rest)) := (srv.results(base), Reached(fetches), Pop(pending, covered));
            var nodes := Sent(srv, |fetches|, base, c).value;
            && c + |nodes| <= |flat| && nodes == Window(flat, c, |nodes|, base)
            && Under(rest, seen, Marked(covered, next.value.expr, |nodes|), base, flat, Cuts(flat, fetches),
                     c, c + |nodes|, 2 * c, followups)
  {
    hide Pop, Between, IsCovered, CleanBase, Linked, Once, Counted, Cuts, Tiles, Sent, Marked, Ready,
         Relative, Earlier;
    hide SplitResumeSuffix;
    var base := SplitResumeSuffix(root).0;
    var flat, c := srv.results(base), Reached(fetches);
    var nodes := Sent(srv, |fetches|, base, c).value;
    SentIsWindow(srv, |fetches|, base, c);
    SentInside(srv, |fetches|, base, c);
    PopBetween(pending, seen, covered, root, base, flat, fetches);
    FetchBetween(pending, seen, covered, root, base, flat, fetches, |nodes|);
    CutsAreEarlier(flat, base, fetches);
    NothingCutYet(flat, c, c + |nodes|);
    assert Cuts(flat, fetches) + {} == Cuts(flat, fetches);
  }

  lemma NothingCutYet(flat: seq<WireNode>, a: nat, c: nat)
    ensures CutSet(flat, a, c, 2 * a) == {}
  {
    hide PointsAt;
  }

  /** With their pointers followed and none dropped, the turn is over. */
  lemma TurnEnds(srv: Server, pending: seq<PendingContinuation>, seen: set<Bytes>, covered: Coverage,
                 root: Bytes, fetches: seq<Fetch>, followups: nat,
                 pending': seq<PendingContinuation>, seen': set<Bytes>, covered': Coverage, followups': nat)
    requires Following(srv, pending, seen, covered, root, fetches, followups)
    requires var base := SplitResumeSuffix(root).0;
             && Reached(fetches) <= |srv.results(base)| && Sent(srv, |fetches|, base, Reached(fetches)).Some?
             && !(fetches != [] && Reached(fetches) == |srv.results(base)|)
    ensures var base := SplitResumeSuffix(root).0;
            var (flat, c) := (srv.results(base), Reached(fetches));
            var nodes := Sent(srv, |fetches|, base, c).value;
            var end := c + |nodes|;
            && (Under(pending', seen', covered', base, flat, Cuts(flat, fetches), c, end, 2 * end, followups') ==>
                  Following(srv, pending', seen', covered', root, fetches + [Fetch(c, nodes)], followups'))
            && (|Cuts(flat, fetches) + CutSet(flat, c, end, 2 * end)| > MAX_FOLLOWUPS ==>
                  TooMany(srv, base, fetches + [Fetch(c, nodes)]))
  {
    hide Between, IsCovered, CleanBase, Linked, Once, Counted, Cuts, Tiles, Sent, Ready, CutSet,
         Relative, Earlier, SplitResumeSuffix, Pieces, Reached;
    var base := SplitResumeSuffix(root).0;
    var flat, c := srv.results(base), Reached(fetches);
    var last := Fetch(c, Sent(srv, |fetches|, base, c).value);
    SentIsWindow(srv, |fetches|, base, c);
    SentInside(srv, |fetches|, base, c);
    NothingReached(fetches);
    TilesExtend(fetches, flat, base, last);
    CutsSnoc(flat, fetches, last);
    PiecesStep(srv, base, fetches);
    PiecesExtend(srv, base, fetches + [last]);
    BetweenAfter(pending', seen', covered', root, base, flat, fetches + [last]);
    if Pieces(srv, base, []).Some? {
      SubsetSize(Cuts(flat, fetches + [last]), Cuts(flat, Pieces(srv, base, []).value));
    }
  }

  lemma PiecesStep(srv: Server, base: Bytes, done: seq<Fetch>)
    requires Reached(done) <= |srv.results(base)| && !(done != [] && Reached(done) == |srv.results(base)|)
    ensures var r := Sent(srv, |done|, base, Reached(done));
            Pieces(srv, base, done) == if r.None? then None else Pieces(srv, base, done + [Fetch(Reached(done), r.value)])
  {
    hide Sent, Reached;
  }

  lemma NothingReached(fetches: seq<Fetch>)
    ensures fetches == [] ==> Reached(fetches) == 0
  {
  }

  lemma BetweenAfter(pending: seq<PendingContinuation>, seen: set<Bytes>, covered: Coverage,
                     root: Bytes, base: Bytes, flat: seq<WireNode>, fetches: seq<Fetch>)
    requires fetches != [] && (flat != [] ==> Reached(fetches) > 0)
    ensures Ready(pending, seen, covered, base, flat, Reached(fetches), 2 * Reached(fetches)) ==>
              Between(pending, seen, covered, root, base, flat, fetches)
  {
    hide Ready;
  }

  /** More continuations than may be followed, in these fetches and in the pieces the rounds deliver. */
  ghost predicate TooMany(srv: Server, base: Bytes, fetches: seq<Fetch>) {
    && |Cuts(srv.results(base), fetches)| > MAX_FOLLOWUPS
    && (Pieces(srv, base, []).Some? ==> |Cuts(srv.results(base), Pieces(srv, base, []).value)| > MAX_FOLLOWUPS)
  }

  lemma TooManyStays(srv: Server, base: Bytes, fetches: seq<Fetch>, last: Fetch)
    requires TooMany(srv, base, fetches)
    ensures TooMany(srv, base, fetches + [last])
  {
    hide Cuts, Pieces;
    CutsSnoc(srv.results(base), fetches, last);
    SubsetSize(Cuts(srv.results(base), fetches), Cuts(srv.results(base), fetches + [last]));
  }

  /** One turn of followQueue: take a continuation, fetch it, mark it, follow its pointers. */
  method Turn(srv: Server, q: ContinuationQueue, followups: nat,
              ghost clean: bool, ghost good: bool, ghost root: Bytes, ghost fetches: seq<Fetch>, round: nat)
      returns (outcome: TurnOutcome, followups': nat, dropped: bool)
    requires followups <= MAX_FOLLOWUPS && round == |fetches|
    requires var base := SplitResumeSuffix(root).0;
             clean ==> CleanBase(base) && Relative(srv.results(base)) && OfBase(q.pending, base)
    requires good ==> Following(srv, q.pending, q.seen, q.covered, root, fetches, followups)
    modifies q
    ensures followups <= followups' <= MAX_FOLLOWUPS && (clean ==> OfBase(q.pending, SplitResumeSuffix(root).0))
    ensures outcome.Fetched? ==> 2 * followups' - |q.pending| > 2 * followups - |old(q.pending)|
    ensures good && outcome.Fetched? && !dropped ==>
              Following(srv, q.pending, q.seen, q.covered, root, fetches + [outcome.fetch], followups')
    ensures good && outcome.Fetched? && dropped ==>
              TooMany(srv, SplitResumeSuffix(root).0, fetches + [outcome.fetch])
    ensures good && outcome == Drained ==>
              && Pieces(srv, SplitResumeSuffix(root).0, []) == Some(fetches)
              && |Cuts(srv.results(SplitResumeSuffix(root).0), fetches)| <= MAX_FOLLOWUPS
    ensures good && outcome == Unanswered ==> Pieces(srv, SplitResumeSuffix(root).0, []) == None
    ensures clean && outcome == Unanswered ==> Starves(srv, SplitResumeSuffix(root).0)
  {
    hide Following, Under, Sound, CleanBase, IsCovered, Relative, Pop, Marked, Window, Cuts, CutSet, Sent,
         Pieces, TooMany, Starves, NodesOfBase, SplitResumeSuffix;
    followups', dropped := followups, false;
    ghost var pending, seen, covered, base := q.pending, q.seen, q.covered, SplitResumeSuffix(root).0;
    ghost var flat, c := srv.results(base), Reached(fetches);
    PopSpec(pending, covered);
    if good {
      TurnStarts(srv, pending, seen, covered, root, fetches, followups);
    }
    var next := q.Next();
    if next.None? {
      if good {
        FollowingSound(srv, pending, seen, covered, root, fetches, followups);
      }
      return Drained, followups, false;
    }
    var expr := next.value;
    ghost var entry := Pop(pending, covered).0.value;
    assert clean ==> entry in pending && SplitResumeSuffix(expr).0 == base;
    var reply := Serve(srv, round, expr);
    var (_, start) := SplitResumeSuffix(expr);
    if reply.Silence? {
      StarvesAt(srv, SplitResumeSuffix(expr).0, round, start);
      if good {
        PiecesFollow(srv, q.pending, pending, seen, covered, root, fetches, followups);
      }
      return Unanswered, followups, false;
    }
    var nodes := if reply.Nodes? then reply.nodes else [];
    if clean {
      RepliedOfBase(srv, round, base, start, nodes);
    }
    q.MarkCovered(expr, |nodes|);
    if good {
      TurnFetches(srv, pending, seen, covered, root, fetches, followups);
      FollowingSound(srv, pending, seen, covered, root, fetches, followups);
    }
    followups', dropped := FollowAll(q, nodes, followups, clean, good, base, flat, Cuts(flat, fetches), if good then c else 0);
    outcome := Fetched(Fetch(start, nodes));
    if good {
      TurnEnds(srv, pending, seen, covered, root, fetches, followups, q.pending, q.seen, q.covered, followups');
    }
  }

  /** The pointers of whatever is sent lead to continuations of the same base. */
  lemma RepliedOfBase(srv: Server, round: nat, base: Bytes, idx: int, nodes: seq<WireNode>)
    requires CleanBase(base) && Relative(srv.results(base))
    requires nodes != [] ==>
               0 <= idx <= |srv.results(base)| && Sent(srv, round, base, idx) == Some(nodes)
    ensures NodesOfBase(nodes, base)
  {
    hide CleanBase, Relative, Sent, Window, PointerOfBase;
    if nodes != [] {
      SentIsWindow(srv, round, base, idx);
      WindowOfBase(srv.results(base), idx, |nodes|, base);
    }
  }

  lemma FollowingSound(srv: Server, pending: seq<PendingContinuation>, seen: set<Bytes>, covered: Coverage,
                       root: Bytes, fetches: seq<Fetch>, followups: nat)
    requires Following(srv, pending, seen, covered, root, fetches, followups)
    ensures Sound(SplitResumeSuffix(root).0, srv.results(SplitResumeSuffix(root).0))
    ensures |Cuts(srv.results(SplitResumeSuffix(root).0), fetches)| == followups
  {
  }

  /** A round that stays silent ends the pieces. */
  lemma PiecesFollow(srv: Server, rest: seq<PendingContinuation>, pending: seq<PendingContinuation>, seen: set<Bytes>,
                     covered: Coverage, root: Bytes, fetches: seq<Fetch>, followups: nat)
    requires Following(srv, pending, seen, covered, root, fetches, followups)
    requires var base := SplitResumeSuffix(root).0;
             && Reached(fetches) <= |srv.results(base)| && Sent(srv, |fetches|, base, Reached(fetches)).None?
             && !(fetches != [] && Reached(fetches) == |srv.results(base)|)
    ensures Pieces(srv, SplitResumeSuffix(root).0, []) == None
  {
    hide Pieces, Sent, Between, Tiles, Sound, Counted, Cuts, SplitResumeSuffix;
    PiecesStep(srv, SplitResumeSuffix(root).0, fetches);
  }

  // --- whole fetches --------------------------------------------------------------------

  /**
   * followQueue, started as followGet starts it: fetch the next continuation, note what
   * it covered, queue its pointers. It is complete exactly when no round of the pieces
   * starves and they cut off no more indices than may be followed; then it has fetched
   * those pieces, which reassemble to the result.
   */
  method FollowGet(srv: Server, root: Bytes) returns (fetches: seq<Fetch>, outcome: Outcome)
    requires forall b :: Relative(srv.results(b)) && Linked(srv.results(b)) && Once(srv.results(b))
    ensures var (base, start) := SplitResumeSuffix(root);
            var flat := srv.results(base);
            var pieces := Pieces(srv, base, []);
            CleanBase(base) && start == 0 ==>
              && (outcome == Complete <==> pieces.Some? && |Cuts(flat, pieces.value)| <= MAX_FOLLOWUPS)
              && (outcome == Complete ==>
                    && pieces == Some(fetches) && Tiles(fetches, flat, base) && Reassemble(fetches, base) == flat
                    && (flat != [] ==> |fetches| <= |flat|))
              && (outcome == Capped ==> |Cuts(flat, fetches)| > MAX_FOLLOWUPS)
              && (outcome == NoReply ==> Starves(srv, base))
  {
    hide SplitResumeSuffix, CleanBase, Relative, Linked, Once, Following, Pieces, Cuts, Tiles, Reassemble, Starves,
         TooMany;
    hide IsCovered, Sent;
    var q := new ContinuationQueue();
    var _ := q.Add(root);
    fetches := [];
    var capped, followups := false, 0;
    ghost var base := SplitResumeSuffix(root).0;
    ghost var flat, clean := srv.results(base), CleanBase(base) && SplitResumeSuffix(root).1 == 0;
    assert [] + q.pending == q.pending;
    NothingCovered();
    if clean {
      IsSound(base, flat);
      StartFollowing(srv, root);
      assert q.pending == [PendingContinuation(root, base, 0)] && q.seen == {root};
    }
    while true
      invariant followups <= MAX_FOLLOWUPS && (clean ==> OfBase(q.pending, base))
      invariant clean && !capped ==> Following(srv, q.pending, q.seen, q.covered, root, fetches, followups)
      invariant clean && capped ==> TooMany(srv, base, fetches)
      decreases 2 * (MAX_FOLLOWUPS - followups) + |q.pending|
    {
      hide OfBase;
      var turn, dropped;
      ghost var before := fetches;
      turn, followups, dropped := Turn(srv, q, followups, clean, clean && !capped, root, fetches, |fetches|);
      match turn {
        case Drained =>
          break;
        case Unanswered =>
          if clean && capped {
            TooManyPieces(srv, base, fetches);
          }
          return fetches, NoReply;
        case Fetched(fetch) =>
          if clean && capped {
            TooManyStays(srv, base, fetches, fetch);
          }
          capped := capped || dropped;
          fetches := fetches + [fetch];
      }
    }
    outcome := if capped then Capped else Complete;
    if clean {
      if capped {
        TooManyPieces(srv, base, fetches);
      } else {
        AllFetched(srv, base, fetches);
      }
    }
  }

  lemma NothingCovered()
    ensures forall b, i :: !IsCovered(map[], b, i)
  {
  }

  lemma IsSound(base: Bytes, flat: seq<WireNode>)
    requires CleanBase(base) && Relative(flat) && Linked(flat) && Once(flat)
    ensures Sound(base, flat)
  {
  }

  lemma TooManyPieces(srv: Server, base: Bytes, fetches: seq<Fetch>)
    requires TooMany(srv, base, fetches)
    ensures |Cuts(srv.results(base), fetches)| > MAX_FOLLOWUPS
    ensures Pieces(srv, base, []).Some? ==> |Cuts(srv.results(base), Pieces(srv, base, []).value)| > MAX_FOLLOWUPS
  {
  }

  lemma AllFetched(srv: Server, base: Bytes, fetches: seq<Fetch>)
    requires Sound(base, srv.results(base)) && Pieces(srv, base, []) == Some(fetches)
    ensures var flat := srv.results(base);
            Tiles(fetches, flat, base) && Reassemble(fetches, base) == flat && (flat != [] ==> |fetches| <= |flat|)
  {
    hide Pieces, CleanBase, Relative, Linked, Once, Reassemble;
    PiecesTile(srv, base, []);
    TilesReassemble(fetches, srv.results(base), base);
  }

  /** A server whose expressions match these forests. */
  function ServerOf(forest: Bytes -> seq<Rose>, budget: nat -> int, measure: nat -> seq<WireNode> -> int): Server
    requires forall b :: Size(forest(b)) <= MAX_INT64
  {
    Server(b requires Size(forest(b)) <= MAX_INT64 => Flat(forest(b)), budget, measure)
  }

  lemma ServerSound(forest: Bytes -> seq<Rose>, budget: nat -> int, measure: nat -> seq<WireNode> -> int, b: Bytes)
    requires forall b :: Size(forest(b)) <= MAX_INT64
    ensures var flat := ServerOf(forest, budget, measure).results(b);
            flat == Flat(forest(b)) && Relative(flat) && Linked(flat) && Once(flat)
  {
    hide Relative, Linked, Once, Flat, Size;
    FlatIsRelative(forest(b));
    FlatIsLinked(forest(b));
  }

  /**
   * The same over forests. In particular: if no round starves and the forest has no more
   * nodes than may be followed up, fetching in pieces ends, and its pieces put together
   * and read by their offsets are exactly the forest that the expression matches.
   */
  method FetchForest(forest: Bytes -> seq<Rose>, budget: nat -> int, measure: nat -> seq<WireNode> -> int, root: Bytes)
      returns (fetches: seq<Fetch>, outcome: Outcome)
    requires forall b :: Size(forest(b)) <= MAX_INT64
    ensures var (base, start) := SplitResumeSuffix(root);
            var srv := ServerOf(forest, budget, measure);
            var pieces := Pieces(srv, base, []);
            CleanBase(base) && start == 0 ==>
              && (outcome == Complete <==> pieces.Some? && |Cuts(Flat(forest(base)), pieces.value)| <= MAX_FOLLOWUPS)
              && (!Starves(srv, base) && Size(forest(base)) <= MAX_FOLLOWUPS ==> outcome == Complete)
              && (outcome == Complete && forest(base) != [] ==>
                    var all := Reassemble(fetches, base);
                    |all| == Size(forest(base)) && |all| > 0 && Unflatten(all, 0) == forest(base)
                    && |fetches| <= |all|)
              && (outcome == Capped ==> |Cuts(Flat(forest(base)), fetches)| > MAX_FOLLOWUPS)
              && (outcome == NoReply ==> Starves(srv, base))
  {
    hide SplitResumeSuffix, CleanBase, Relative, Linked, Once, Pieces, Cuts, Reassemble, Starves, Flat, Size, Tiles, Sent,
         ServerOf;
    var srv := ServerOf(forest, budget, measure);
    forall b
      ensures Relative(srv.results(b)) && Linked(srv.results(b)) && Once(srv.results(b))
    {
      ServerSound(forest, budget, measure, b);
    }
    fetches, outcome := FollowGet(srv, root);
    ghost var base := SplitResumeSuffix(root).0;
    ServerSound(forest, budget, measure, base);
    PiecesUnlessStarved(srv, base, []);
    if Pieces(srv, base, []).Some? {
      FewCuts(srv.results(base), Pieces(srv, base, []).value);
    }
    if forest(base) != [] {
      UnflattenInvertsFlat(forest(base));
      SomeNodes(forest(base));
    }
  }

  lemma SomeNodes(ts: seq<Rose>)
    requires ts != []
    ensures Size(ts) > 0
  {
  }
}
