/**
 * The receiving half of goimpl/internal/reliability/reliability.go: which
 * sequence numbers have arrived, and the acknowledgement built from them.
 */
module Receiver {
  import opened Basics
  import opened WireTypes

  const MAX_OUT_OF_ORDER: nat := 1024
  const MAX_ACK_RANGES: nat := 64

  /** The receiver's state as a value: everything in [1, contiguous], and above. */
  datatype Recv = Recv(contiguous: int64, above: set<int64>)

  ghost predicate Valid(r: Recv) {
    && r.contiguous >= 0
    && |r.above| <= MAX_OUT_OF_ORDER
    && Spaced(r)
  }

  /** Nothing held directly follows the mark, or lies at or below it. */
  ghost predicate Spaced(r: Recv) {
    forall s :: s in r.above ==> s > r.contiguous + 1
  }

  /** s counts as received. */
  ghost predicate Seen(r: Recv, s: int) {
    1 <= s <= r.contiguous || s in r.above
  }

  // --- MarkReceived -------------------------------------------------------------

  function Advance(r: Recv): Recv
    decreases |r.above|
  {
    if r.contiguous + 1 in r.above
    then Advance(Recv(r.contiguous + 1, r.above - {r.contiguous + 1}))
    else r
  }

  lemma {:induction false} LowestExists(s: set<int64>) returns (low: int64)
    requires s != {}
    ensures low in s && forall y :: y in s ==> low <= y
    decreases |s|
  {
    var x :| x in s;
    var rest := s - {x};
    low := x;
    assert forall y :: y in s ==> y == x || y in rest;
    if rest != {} {
      var m := LowestExists(rest);
      low := if low < m then low else m;
    }
  }

  ghost function Lowest(s: set<int64>): (low: int64)
    requires s != {}
    ensures low in s && forall y :: y in s ==> low <= y
  {
    assert exists x :: x in s && forall y :: y in s ==> x <= y by { var low := LowestExists(s); }
    var x :| x in s && forall y :: y in s ==> x <= y;
    x
  }

  lemma {:induction false} AdvanceSpec(r: Recv)
    requires forall s :: s in r.above ==> s > r.contiguous
    ensures var r' := Advance(r);
            && Spaced(r') && r.contiguous <= r'.contiguous
            && r'.above <= r.above
            && (forall s :: s in r.above <==> r.contiguous < s <= r'.contiguous || s in r'.above)
            && (r.contiguous + 1 in r.above ==> |r'.above| < |r.above|)
            && |r'.above| <= |r.above|
    decreases |r.above|
  {
    if r.contiguous + 1 in r.above {
      AdvanceSpec(Recv(r.contiguous + 1, r.above - {r.contiguous + 1}));
    }
  }

  /** Abandoning gaps while too many are held: the mark jumps to just below the lowest one. */
  ghost function Shrink(r: Recv): Recv
    requires Spaced(r) && r.contiguous >= 0
    decreases |r.above|
  {
    if |r.above| <= MAX_OUT_OF_ORDER then r
    else
      var jumped := Recv(Lowest(r.above) - 1, r.above);
      AdvanceSpec(jumped);
      Shrink(Advance(jumped))
  }

  ghost function Marked(r: Recv, seqNo: int64): (Recv, bool)
    requires r.contiguous >= 0 && Spaced(r)
  {
    if seqNo <= r.contiguous || seqNo in r.above then (r, false)
    else
      var held := Recv(r.contiguous, r.above + {seqNo});
      AdvanceSpec(held);
      (Shrink(Advance(held)), true)
  }

  /** The sequence numbers given up on when seqNo is marked: the lowest gap, if one too many is held. */
  ghost function Abandoned(r: Recv, seqNo: int64): set<int>
    requires r.contiguous >= 0 && Spaced(r)
  {
    var held := Advance(Recv(r.contiguous, r.above + {seqNo}));
    if seqNo <= r.contiguous || seqNo in r.above || |held.above| <= MAX_OUT_OF_ORDER then {}
    else
      var lo, hi := held.contiguous, Lowest(held.above);
      set s | lo < s < hi && InGap(lo, s, hi)
  }

  predicate InGap(lo: int, s: int, hi: int) {
    lo < s < hi
  }

  /**
   * MarkReceived against a plain set: it answers "new" exactly for a positive
   * sequence number not yet seen, and what is seen afterwards is what was seen
   * before, that number, and the numbers it gave up on, none of which had arrived.
   */
  lemma MarkRefinesSet(r: Recv, seqNo: int64)
    requires Valid(r)
    ensures var (r', isNew) := Marked(r, seqNo);
            && Valid(r')
            && (isNew <==> seqNo >= 1 && !Seen(r, seqNo))
            && (forall s :: Seen(r', s) <==> Seen(r, s) || (isNew && s == seqNo) || s in Abandoned(r, seqNo))
            && (forall s :: s in Abandoned(r, seqNo) ==> s >= 1 && !Seen(r, s) && s != seqNo)
  {
    if seqNo > r.contiguous && seqNo !in r.above {
      var full := Recv(r.contiguous, r.above + {seqNo});
      AdvanceSpec(full);
      var held := Advance(full);
      if |held.above| > MAX_OUT_OF_ORDER {
        var jumped := Recv(Lowest(held.above) - 1, held.above);
        AdvanceSpec(jumped);
        assert |full.above| <= MAX_OUT_OF_ORDER + 1;
        assert Shrink(held) == Advance(jumped);
      }
    }
  }

  /** A gap is given up on only when 1024 numbers above it were already held. */
  lemma AbandonsOnlyWhenFull(r: Recv, seqNo: int64)
    requires Valid(r) && Abandoned(r, seqNo) != {}
    ensures |r.above| == MAX_OUT_OF_ORDER
  {
    AdvanceSpec(Recv(r.contiguous, r.above + {seqNo}));
  }

  // --- whole runs of one receiver -------------------------------------------------

  datatype History = History(recv: Recv, accepted: seq<int64>, abandoned: set<int>)

  ghost function Arrive(h: History, seqNo: int64): History
    requires h.recv.contiguous >= 0 && Spaced(h.recv)
  {
    var (r', isNew) := Marked(h.recv, seqNo);
    History(r', if isNew then h.accepted + [seqNo] else h.accepted, h.abandoned + Abandoned(h.recv, seqNo))
  }

  ghost predicate HistoryOk(h: History) {
    && Valid(h.recv)
    && NoDup(h.accepted)
    && (forall s :: s in h.accepted ==> s !in h.abandoned)
    && (forall s :: Seen(h.recv, s) <==> s in h.accepted || s in h.abandoned)
    && (forall s :: s in h.accepted || s in h.abandoned ==> s >= 1)
  }

  ghost function HistoryOf(arrivals: seq<int64>): (h: History)
    ensures HistoryOk(h)
  {
    if arrivals == [] then History(Recv(0, {}), [], {})
    else
      var n := |arrivals| - 1;
      var h := HistoryOf(arrivals[..n]);
      ArriveKeeps(h, arrivals[n]);
      Arrive(h, arrivals[n])
  }

  lemma ArriveKeeps(h: History, seqNo: int64)
    requires HistoryOk(h)
    ensures HistoryOk(Arrive(h, seqNo))
  {
    hide Marked, Abandoned;
    MarkRefinesSet(h.recv, seqNo);
  }

  /** What is accepted has arrived, and every positive number that has arrived was accepted or given up on. */
  lemma {:induction false} AcceptedOrAbandoned(arrivals: seq<int64>, seqNo: int64)
    requires seqNo >= 1
    ensures var h := HistoryOf(arrivals);
            && (seqNo in h.accepted ==> seqNo in arrivals)
            && (seqNo in arrivals ==> seqNo in h.accepted || seqNo in h.abandoned)
  {
    hide Marked, Abandoned, HistoryOk;
    if arrivals != [] {
      var n := |arrivals| - 1;
      var h, last := HistoryOf(arrivals[..n]), arrivals[n];
      AcceptedOrAbandoned(arrivals[..n], seqNo);
      HistoryValid(h);
      MarkRefinesSet(h.recv, last);
      SeenInHistory(h, last);
      assert arrivals == arrivals[..n] + [last];
    }
  }

  lemma HistoryValid(h: History)
    requires HistoryOk(h)
    ensures Valid(h.recv)
  {
  }

  lemma SeenInHistory(h: History, s: int)
    requires HistoryOk(h)
    ensures Seen(h.recv, s) <==> s in h.accepted || s in h.abandoned
  {
  }

  /**
   * Over any arrivals, the next one is answered as a set of all the arrivals so far
   * would answer it: new if and only if it has not arrived yet. The one exception is a
   * number given up on before it arrived, which is never new.
   */
  lemma {:induction false} AnswersLikeUnboundedSet(arrivals: seq<int64>, seqNo: int64)
    requires seqNo >= 1
    ensures var h := HistoryOf(arrivals);
            (Marked(h.recv, seqNo).1 <==> seqNo !in arrivals) <==> seqNo !in h.abandoned || seqNo in arrivals
  {
    hide Marked, HistoryOf, HistoryOk;
    var h := HistoryOf(arrivals);
    HistoryValid(h);
    SeenInHistory(h, seqNo);
    AcceptedOrAbandoned(arrivals, seqNo);
    MarkRefinesSet(h.recv, seqNo);
  }

  // --- BuildAck -------------------------------------------------------------------

  ghost function Sorted(s: set<int64>): (q: seq<int64>)
    ensures q == [] <==> s == {}
  {
    if s == {} then [] else [Lowest(s)] + Sorted(s - {Lowest(s)})
  }

  lemma {:induction false} SortedSpec(s: set<int64>)
    ensures forall x :: x in Sorted(s) <==> x in s
    ensures forall i, j :: 0 <= i < j < |Sorted(s)| ==> Sorted(s)[i] < Sorted(s)[j]
  {
    if s != {} {
      var low := Lowest(s);
      var rest := Sorted(s - {low});
      SortedSpec(s - {low});
      assert forall i :: 0 <= i < |rest| ==> rest[i] in rest;
    }
  }

  /** The runs of an ascending sequence, start..end being the one under way. */
  function Runs(start: int64, end: int64, seqs: seq<int64>): seq<SequenceRange>
    decreases |seqs|
  {
    if seqs == [] then [SequenceRange(start, end)]
    else if seqs[0] == end + 1 then Runs(start, seqs[0], seqs[1..])
    else [SequenceRange(start, end)] + Runs(seqs[0], seqs[0], seqs[1..])
  }

  ghost function UpperRanges(above: set<int64>): seq<SequenceRange> {
    var sorted := Sorted(above);
    if above == {} then [] else Runs(sorted[0], sorted[0], sorted[1..])
  }

  ghost function AllRanges(r: Recv): seq<SequenceRange> {
    (if r.contiguous > 0 then [SequenceRange(1, r.contiguous)] else []) + UpperRanges(r.above)
  }

  function Capped(ranges: seq<SequenceRange>): seq<SequenceRange> {
    if |ranges| > MAX_ACK_RANGES then ranges[..MAX_ACK_RANGES] else ranges
  }

  ghost function AckOf(r: Recv): SummaryAck {
    SummaryAck(Capped(AllRanges(r)))
  }

  /** Of more runs than fit, an acknowledgement has the lowest ones. */
  lemma AckHasLowest(r: Recv)
    ensures AckOf(r).received <= AllRanges(r)
    ensures |AckOf(r).received| == if |AllRanges(r)| > 64 then 64 else |AllRanges(r)|
  {
  }

  predicate InRange(x: SequenceRange, s: int) {
    x.first <= s <= x.last
  }

  predicate Covers(ranges: seq<SequenceRange>, s: int) {
    exists i :: 0 <= i < |ranges| && InRange(ranges[i], s)
  }

  /** Non-empty ranges in order with a gap between any two. */
  ghost predicate Separated(ranges: seq<SequenceRange>) {
    && (forall i :: 0 <= i < |ranges| ==> ranges[i].first <= ranges[i].last)
    && (forall i, j :: 0 <= i < j < |ranges| ==> ranges[i].last + 1 < ranges[j].first)
  }

  lemma {:induction false} RunsSpec(start: int64, end: int64, seqs: seq<int64>)
    requires start <= end
    requires forall i :: 0 <= i < |seqs| ==> end < seqs[i]
    requires forall i, j :: 0 <= i < j < |seqs| ==> seqs[i] < seqs[j]
    ensures var q := Runs(start, end, seqs);
            && q != [] && q[0].first == start && Separated(q)
            && (forall s :: Covers(q, s) <==> start <= s <= end || s in seqs)
    decreases |seqs|
  {
    var q := Runs(start, end, seqs);
    if seqs == [] {
      assert forall s :: Covers(q, s) <==> InRange(q[0], s);
    } else {
      var rest := seqs[1..];
      assert seqs == [seqs[0]] + rest;
      if seqs[0] == end + 1 {
        RunsSpec(start, seqs[0], rest);
      } else {
        RunsSpec(seqs[0], seqs[0], rest);
        var tail := Runs(seqs[0], seqs[0], rest);
        CoversCons(SequenceRange(start, end), tail);
        SeparatedCons(SequenceRange(start, end), tail);
      }
    }
  }

  lemma CoversCons(x: SequenceRange, tail: seq<SequenceRange>)
    ensures forall s :: Covers([x] + tail, s) <==> InRange(x, s) || Covers(tail, s)
  {
    forall s
      ensures Covers([x] + tail, s) <==> InRange(x, s) || Covers(tail, s)
    {
      var q := [x] + tail;
      if InRange(x, s) {
        assert InRange(q[0], s);
      }
      if Covers(tail, s) {
        var i :| 0 <= i < |tail| && InRange(tail[i], s);
        assert InRange(q[i + 1], s);
      }
    }
  }

  lemma SeparatedCons(x: SequenceRange, tail: seq<SequenceRange>)
    requires x.first <= x.last && Separated(tail)
    requires tail != [] ==> x.last + 1 < tail[0].first
    ensures Separated([x] + tail)
  {
    forall j | 0 <= j < |tail|
      ensures x.last + 1 < tail[j].first
    {
      if j > 0 {
        assert tail[0].last + 1 < tail[j].first;
      }
    }
  }

  lemma UpperRangesSpec(above: set<int64>)
    ensures var q := UpperRanges(above);
            && Separated(q)
            && (forall s :: Covers(q, s) <==> s in above)
            && (q != [] ==> q[0].first in above)
  {
    if above != {} {
      hide Runs, Sorted, Covers, Separated;
      var sorted := Sorted(above);
      SortedSpec(above);
      assert sorted == [sorted[0]] + sorted[1..];
      RunsSpec(sorted[0], sorted[0], sorted[1..]);
    }
  }

  /** The ranges before capping are the maximal runs of what has been seen. */
  lemma AllRangesAreMaximalRuns(r: Recv)
    requires Valid(r)
    ensures Separated(AllRanges(r))
    ensures forall s :: Covers(AllRanges(r), s) <==> Seen(r, s)
  {
    hide Separated, Covers, UpperRanges;
    var upper := UpperRanges(r.above);
    UpperRangesSpec(r.above);
    if r.contiguous > 0 {
      CoversCons(SequenceRange(1, r.contiguous), upper);
      SeparatedCons(SequenceRange(1, r.contiguous), upper);
    } else {
      assert AllRanges(r) == upper;
    }
  }

  /** Maximal runs determine the list: any other separated list with the same cover is this one. */
  lemma {:induction false} SeparatedUnique(a: seq<SequenceRange>, b: seq<SequenceRange>)
    requires Separated(a) && Separated(b)
    requires forall s :: Covers(a, s) <==> Covers(b, s)
    ensures a == b
    decreases |a|
  {
    if a == [] {
      if b != [] {
        assert InRange(b[0], b[0].first) && Covers(b, b[0].first);
      }
    } else {
      assert InRange(a[0], a[0].first) && Covers(a, a[0].first) && Covers(b, a[0].first);
      HeadIsLowest(b, a[0].first);
      assert InRange(b[0], b[0].first) && Covers(b, b[0].first) && Covers(a, b[0].first);
      HeadIsLowest(a, b[0].first);
      HeadEnds(a, b);
      HeadEnds(b, a);
      var a', b' := a[1..], b[1..];
      assert a == [a[0]] + a' && b == [b[0]] + b';
      CoversCons(a[0], a');
      CoversCons(b[0], b');
      TailBeyond(a);
      TailBeyond(b);
      SeparatedUnique(a', b');
    }
  }

  lemma HeadIsLowest(q: seq<SequenceRange>, s: int)
    requires Separated(q) && Covers(q, s)
    ensures q != [] && q[0].first <= s
  {
    var i :| 0 <= i < |q| && InRange(q[i], s);
    if i > 0 {
      assert q[0].last + 1 < q[i].first;
    }
  }

  lemma HeadEnds(a: seq<SequenceRange>, b: seq<SequenceRange>)
    requires Separated(a) && Separated(b) && a != [] && b != [] && a[0].first == b[0].first
    requires forall s :: Covers(a, s) <==> Covers(b, s)
    ensures a[0].last <= b[0].last
  {
    NotCoveredAfterHead(b);
    assert a[0].last > b[0].last ==> InRange(a[0], b[0].last + 1);
  }

  lemma NotCoveredAfterHead(b: seq<SequenceRange>)
    requires Separated(b) && b != []
    ensures !Covers(b, b[0].last + 1)
  {
    TailBeyond(b);
    forall i | 0 <= i < |b|
      ensures !InRange(b[i], b[0].last + 1)
    {
      if i > 0 {
        assert b[0].last + 1 < b[i].first;
      }
    }
  }

  lemma TailBeyond(a: seq<SequenceRange>)
    requires Separated(a) && a != []
    ensures Separated(a[1..])
    ensures forall s :: Covers(a[1..], s) ==> s > a[0].last
  {
    var t := a[1..];
    forall s | Covers(t, s)
      ensures s > a[0].last
    {
      var i :| 0 <= i < |t| && InRange(t[i], s);
      assert a[0].last + 1 < a[i + 1].first;
    }
  }

  // --- the class --------------------------------------------------------------------

  class Receiver {
    var contiguous: int64
    var above: set<int64>

    ghost function State(): Recv
      reads this
    {
      Recv(contiguous, above)
    }

    constructor ()
      ensures State() == Recv(0, {}) && Valid(State())
    {
      contiguous, above := 0, {};
    }

    method MarkReceived(seqNo: int64) returns (isNew: bool)
      requires Valid(State())
      modifies this
      ensures Valid(State())
      ensures (State(), isNew) == Marked(old(State()), seqNo)
    {
      hide Advance;
      MarkRefinesSet(State(), seqNo);
      if seqNo <= contiguous || seqNo in above {
        return false;
      }
      AdvanceSpec(Recv(contiguous, above + {seqNo}));
      above := above + {seqNo};
      AdvanceMark();
      while |above| > MAX_OUT_OF_ORDER
        invariant contiguous >= 0 && Spaced(State())
        invariant Shrink(State()) == Marked(old(State()), seqNo).0
        decreases |above|
      {
        var low := LowestAbove();
        AdvanceSpec(Recv(low - 1, above));
        contiguous := low - 1;
        AdvanceMark();
      }
      return true;
    }

    method AdvanceMark()
      modifies this
      ensures State() == Advance(old(State()))
    {
      while contiguous + 1 in above
        invariant Advance(State()) == Advance(old(State()))
        decreases |above|
      {
        above := above - {contiguous + 1};
        contiguous := contiguous + 1;
      }
    }

    method LowestAbove() returns (low: int64)
      requires above != {}
      ensures low == Lowest(above)
    {
      low := LowestOf(above);
    }

    /** BuildAck's scan of the sorted keys, closing a range at each gap. */
    method RangesAbove() returns (ranges: seq<SequenceRange>)
      requires above != {}
      ensures ranges == UpperRanges(above)
    {
      hide Sorted;
      var seqs := SortedKeys(above);
      var start, end := seqs[0], seqs[0];
      ranges := [];
      for i := 1 to |seqs|
        invariant Runs(seqs[0], seqs[0], seqs[1..]) == ranges + Runs(start, end, seqs[i..])
      {
        var s := seqs[i];
        assert seqs[i..][1..] == seqs[i + 1..];
        if s == end as int + 1 {
          end := s;
        } else {
          assert ranges + ([SequenceRange(start, end)] + Runs(s, s, seqs[i + 1..]))
              == ranges + [SequenceRange(start, end)] + Runs(s, s, seqs[i + 1..]);
          ranges := ranges + [SequenceRange(start, end)];
          start, end := s, s;
        }
      }
      ranges := ranges + [SequenceRange(start, end)];
    }

    method BuildAck() returns (ack: SummaryAck)
      requires Valid(State())
      ensures ack == AckOf(State())
    {
      var ranges: seq<SequenceRange> := [];
      if contiguous > 0 {
        ranges := ranges + [SequenceRange(1, contiguous)];
      }
      if above != {} {
        var upper := RangesAbove();
        ranges := ranges + upper;
      }
      if |ranges| > MAX_ACK_RANGES {
        ranges := ranges[..MAX_ACK_RANGES];
      }
      return SummaryAck(ranges);
    }
  }

  /** lowestAbove's scan; the order in which the keys come up does not matter. */
  method LowestOf(s: set<int64>) returns (low: int64)
    requires s != {}
    ensures low == Lowest(s)
  {
    var rest := s;
    var first := true;
    low := 0;
    while rest != {}
      invariant rest <= s && (first ==> rest == s)
      invariant !first ==> low in s && forall y :: y in s && y !in rest ==> low <= y
      decreases rest
    {
      var x :| x in rest;
      if first || x < low {
        low, first := x, false;
      }
      rest := rest - {x};
    }
  }

  /** The keys in ascending order, as sort.Slice leaves them. */
  method SortedKeys(s: set<int64>) returns (q: seq<int64>)
    ensures q == Sorted(s)
  {
    q := [];
    var rest := s;
    while rest != {}
      invariant q + Sorted(rest) == Sorted(s)
      decreases rest
    {
      var low := LowestOf(rest);
      assert q + Sorted(rest) == q + [low] + Sorted(rest - {low});
      q := q + [low];
      rest := rest - {low};
    }
  }
}
