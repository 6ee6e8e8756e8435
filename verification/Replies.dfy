/**
 * The cache that answers retransmitted requests, after
 * goimpl/internal/server/server.go:318-381: a map with a queue of insertions, from
 * whose front expired entries are dropped and whose spent part is cut off. Times are
 * nanoseconds, supplied by the caller.
 */
module Replies {
  import opened Basics
  import opened WireTypes

  const TTL: nat := 30_000_000_000
  const COMPACT_AT: nat := 1024

  datatype Cached = Cached(response: Response, at: nat)

  /** One insertion. */
  datatype Insertion = Insertion(seqNo: int64, response: Response, at: nat)

  datatype Stamp = Stamp(seqNo: int64, at: nat)

  /** The clock does not run backwards. */
  ghost predicate Ordered(log: seq<Insertion>) {
    forall i, j :: 0 <= i < j < |log| ==> log[i].at <= log[j].at
  }

  /** The position of the latest insertion under k. */
  function Latest(log: seq<Insertion>, k: int64): (i: int)
    ensures -1 <= i < |log|
    ensures i >= 0 ==> log[i].seqNo == k
    ensures forall j :: i < j < |log| ==> log[j].seqNo != k
  {
    if log == [] then -1
    else if log[|log| - 1].seqNo == k then |log| - 1
    else Latest(log[..|log| - 1], k)
  }

  predicate Young(i: Insertion, now: nat) {
    now - i.at <= TTL
  }

  /** What a scan of all insertions would keep: each number's latest one, unless too old. */
  ghost predicate FullScan(log: seq<Insertion>, now: nat, entries: map<int64, Cached>) {
    && (forall k :: k in entries ==> Latest(log, k) >= 0)
    && (forall k: int64 :: Latest(log, k) >= 0 ==>
          var i := log[Latest(log, k)];
          && (k in entries <==> Young(i, now))
          && (k in entries ==> entries[k] == Cached(i.response, i.at)))
  }

  /** How many insertions at the front are too old. */
  function Spent(log: seq<Insertion>, now: nat): (n: nat)
    ensures n <= |log|
    ensures forall i :: 0 <= i < n ==> !Young(log[i], now)
    ensures n < |log| ==> Young(log[n], now)
  {
    if log == [] || Young(log[0], now) then 0 else 1 + Spent(log[1..], now)
  }

  function Stamps(log: seq<Insertion>): (s: seq<Stamp>)
    ensures |s| == |log|
  {
    seq(|log|, i requires 0 <= i < |log| => Stamp(log[i].seqNo, log[i].at))
  }

  /**
   * Part way through expiry at time now, after the first d insertions: nothing young
   * is missing, and what is held is a latest insertion not yet looked at.
   */
  ghost predicate Expiring(log: seq<Insertion>, now: nat, entries: map<int64, Cached>, d: nat) {
    && (forall k :: k in entries ==>
          var i := Latest(log, k); d <= i < |log| && entries[k] == Cached(log[i].response, log[i].at))
    && (forall k: int64 :: Latest(log, k) >= 0 && Young(log[Latest(log, k)], now) ==> k in entries)
  }

  lemma LatestSnoc(log: seq<Insertion>, e: Insertion, k: int64)
    ensures Latest(log + [e], k) == if e.seqNo == k then |log| else Latest(log, k)
  {
    assert (log + [e])[..|log|] == log;
  }

  /** A new insertion, before anything has been expired for it. */
  lemma InsertStarts(log: seq<Insertion>, before: nat, entries: map<int64, Cached>, e: Insertion, d: nat)
    requires FullScan(log, before, entries) && before <= e.at && Until(log, before) && d == Spent(log, before)
    ensures Expiring(log + [e], e.at, entries[e.seqNo := Cached(e.response, e.at)], d)
  {
    var log', entries' := log + [e], entries[e.seqNo := Cached(e.response, e.at)];
    forall k: int64
      ensures Latest(log', k) == if e.seqNo == k then |log| else Latest(log, k)
    {
      LatestSnoc(log, e, k);
    }
    forall k | k in entries'
      ensures var i := Latest(log', k); d <= i < |log'| && entries'[k] == Cached(log'[i].response, log'[i].at)
    {
      if k != e.seqNo {
        assert Young(log[Latest(log, k)], before);
      }
    }
  }

  /** Dropping the insertion at position d, which is too old. */
  lemma ExpireOne(log: seq<Insertion>, now: nat, entries: map<int64, Cached>, d: nat)
    requires Expiring(log, now, entries, d) && d < |log| && !Young(log[d], now)
    ensures var k := log[d].seqNo;
            Expiring(log, now, if k in entries && entries[k].at == log[d].at then entries - {k} else entries, d + 1)
  {
    var k := log[d].seqNo;
    var entries' := if k in entries && entries[k].at == log[d].at then entries - {k} else entries;
    forall j | j in entries'
      ensures Latest(log, j) != d
    {
      if j == k {
        assert entries[k] == Cached(log[Latest(log, k)].response, log[Latest(log, k)].at);
      }
    }
    forall j: int64 | Latest(log, j) >= 0 && Young(log[Latest(log, j)], now)
      ensures j in entries'
    {
      if j == k && k in entries {
        assert entries[k].at == log[Latest(log, k)].at;
      }
    }
  }

  /** Once only young insertions are left unlooked at, the map is the full scan. */
  lemma ExpiryEnds(log: seq<Insertion>, now: nat, entries: map<int64, Cached>, d: nat)
    requires Expiring(log, now, entries, d) && Ordered(log) && d <= |log| && (d < |log| ==> Young(log[d], now))
    ensures FullScan(log, now, entries)
  {
    forall k: int64 | k in entries
      ensures Young(log[Latest(log, k)], now)
    {
      assert d <= Latest(log, k);
      assert d < Latest(log, k) ==> log[d].at <= log[Latest(log, k)].at;
    }
  }

  lemma {:induction false} SpentIs(log: seq<Insertion>, now: nat, d: nat)
    requires d <= |log| && (forall i :: 0 <= i < d ==> !Young(log[i], now)) && (d < |log| ==> Young(log[d], now))
    ensures Spent(log, now) == d
  {
    if d > 0 {
      SpentIs(log[1..], now, d - 1);
    }
  }

  /** The queue's live part is the insertions from d on, and the ones before it are too old at time now. */
  ghost predicate Queued(order: seq<Stamp>, head: nat, log: seq<Insertion>, d: nat, now: nat) {
    && d <= |log| && head <= |order| && order[head..] == Stamps(log[d..])
    && forall i :: 0 <= i < d ==> !Young(log[i], now)
  }

  lemma QueuedSnoc(order: seq<Stamp>, head: nat, log: seq<Insertion>, d: nat, before: nat, e: Insertion)
    requires Queued(order, head, log, d, before) && before <= e.at
    ensures Queued(order + [Stamp(e.seqNo, e.at)], head, log + [e], d, e.at)
  {
    assert (log + [e])[d..] == log[d..] + [e];
    assert (order + [Stamp(e.seqNo, e.at)])[head..] == order[head..] + [Stamp(e.seqNo, e.at)];
  }

  lemma QueuedFront(order: seq<Stamp>, head: nat, log: seq<Insertion>, d: nat, now: nat)
    requires Queued(order, head, log, d, now) && head < |order|
    ensures d < |log| && order[head] == Stamp(log[d].seqNo, log[d].at)
    ensures !Young(log[d], now) ==> Queued(order[head := Stamp(0, 0)], head + 1, log, d + 1, now)
  {
    assert order[head..][0] == order[head] && log[d..][0] == log[d];
    assert order[head := Stamp(0, 0)][head + 1..] == order[head..][1..] && log[d..][1..] == log[d + 1..];
  }

  lemma QueuedEmpty(order: seq<Stamp>, head: nat, log: seq<Insertion>, d: nat, now: nat)
    requires Queued(order, head, log, d, now)
    ensures head <= |order| && |order| - head == |log| - d
  {
  }

  lemma QueuedSpent(order: seq<Stamp>, head: nat, log: seq<Insertion>, d: nat, now: nat)
    requires Queued(order, head, log, d, now) && (d < |log| ==> Young(log[d], now))
    ensures d == Spent(log, now)
  {
    SpentIs(log, now, d);
  }

  /** Cutting off the spent part leaves the live part as it is. */
  lemma QueuedCompacted(order: seq<Stamp>, head: nat, log: seq<Insertion>, d: nat, now: nat)
    requires Queued(order, head, log, d, now)
    ensures Queued(order[head..], 0, log, d, now)
  {
    assert order[head..][0..] == order[head..];
  }

  ghost predicate Until(log: seq<Insertion>, now: nat) {
    Ordered(log) && forall i :: 0 <= i < |log| ==> log[i].at <= now
  }

  lemma UntilSnoc(log: seq<Insertion>, before: nat, e: Insertion)
    requires Until(log, before) && before <= e.at
    ensures Until(log + [e], e.at)
  {
  }

  /** What is left of these entries at time now. */
  function Unexpired(entries: map<int64, Cached>, now: nat): map<int64, Cached> {
    map k | k in entries && now - entries[k].at <= TTL :: entries[k]
  }

  /** An insertion leaves the other entries that are not too old by then, and no more. */
  lemma InsertedExactly(log: seq<Insertion>, before: nat, entries: map<int64, Cached>, e: Insertion,
                        entries': map<int64, Cached>)
    requires FullScan(log, before, entries) && FullScan(log + [e], e.at, entries') && before <= e.at
    ensures entries' == Unexpired(entries, e.at)[e.seqNo := Cached(e.response, e.at)]
  {
    var expected := Unexpired(entries, e.at)[e.seqNo := Cached(e.response, e.at)];
    forall k: int64
      ensures k in entries' <==> k in expected
      ensures k in entries' ==> entries'[k] == expected[k]
    {
      LatestSnoc(log, e, k);
    }
  }

  class ReplyCache {
    var entries: map<int64, Cached>
    var order: seq<Stamp>
    var head: nat
    ghost var log: seq<Insertion>
    ghost var clock: nat

    /** The queue's live part is the young insertions, and the map is what a full scan would keep. */
    ghost predicate Valid()
      reads this
    {
      && Until(log, clock)
      && FullScan(log, clock, entries)
      && Queued(order, head, log, Spent(log, clock), clock)
    }

    /** How many insertions are still young. */
    ghost function Live(): int
      reads this
    {
      |log| - Spent(log, clock)
    }

    constructor ()
      ensures Valid() && entries == map[] && log == [] && clock == 0 && order == []
    {
      entries, order, head, log, clock := map[], [], 0, [], 0;
      new;
      NothingCached();
    }

    /** cacheResponseAt: insert, expire from the front, and cut off the spent part once it is most of the queue. */
    method CacheAt(seqNo: int64, response: Response, now: nat)
      requires Valid() && clock <= now
      modifies this
      ensures Valid() && clock == now && log == old(log) + [Insertion(seqNo, response, now)]
      ensures entries == Unexpired(old(entries), now)[seqNo := Cached(response, now)]
      ensures |order| < Live() + COMPACT_AT || |order| < 2 * Live()
    {
      hide FullScan, Expiring, Queued, Until, Spent;
      ghost var e := Insertion(seqNo, response, now);
      ghost var d := Spent(log, clock);
      UntilSnoc(log, clock, e);
      InsertStarts(log, clock, entries, e, d);
      QueuedSnoc(order, head, log, d, clock, e);
      entries := entries[seqNo := Cached(response, now)];
      order := order + [Stamp(seqNo, now)];
      log, clock := log + [e], now;
      Expire(now, d);
      InsertedExactly(old(log), old(clock), old(entries), e, entries);
      d := Spent(log, clock);
      QueuedEmpty(order, head, log, d, now);
      YoungAtEnd(old(log), e);
      if head >= COMPACT_AT && head * 2 >= |order| {
        QueuedCompacted(order, head, log, d, now);
        order := order[head..];
        head := 0;
      }
    }

    /** The loop over the front of the queue. */
    method Expire(now: nat, ghost spent: nat)
      requires Until(log, clock) && now == clock
      requires Queued(order, head, log, spent, now) && Expiring(log, now, entries, spent)
      modifies `entries, `order, `head
      ensures FullScan(log, clock, entries) && Queued(order, head, log, Spent(log, clock), clock)
    {
      hide FullScan, Expiring, Queued, Until, Spent;
      ghost var d: nat := spent;
      QueuedEmpty(order, head, log, d, now);
      while head < |order|
        invariant head <= |order| && Queued(order, head, log, d, now) && Expiring(log, now, entries, d)
      {
        var oldest := order[head];
        QueuedFront(order, head, log, d, now);
        if now - oldest.at <= TTL {
          break;
        }
        ExpireOne(log, now, entries, d);
        if oldest.seqNo in entries && entries[oldest.seqNo].at == oldest.at {
          entries := entries - {oldest.seqNo};
        }
        order := order[head := Stamp(0, 0)];
        head := head + 1;
        d := d + 1;
      }
      QueuedEmpty(order, head, log, d, now);
      assert d < |log| ==> Young(log[d], now) by {
        if d < |log| {
          QueuedFront(order, head, log, d, now);
        }
      }
      OrderedOf(log, now);
      ExpiryEnds(log, now, entries, d);
      QueuedSpent(order, head, log, d, now);
    }
  }

  lemma OrderedOf(log: seq<Insertion>, now: nat)
    requires Until(log, now)
    ensures Ordered(log)
  {
  }

  lemma NothingCached()
    ensures Until([], 0) && FullScan([], 0, map[]) && Queued([], 0, [], Spent([], 0), 0)
  {
  }

  lemma YoungAtEnd(log: seq<Insertion>, e: Insertion)
    ensures Spent(log + [e], e.at) < |log + [e]|
  {
    assert Young((log + [e])[|log|], e.at);
  }
}
