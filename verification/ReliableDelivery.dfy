/**
 * Sender and receiver joined by a network that loses, duplicates and reorders
 * both data and acknowledgements, and the properties every run keeps.
 *
 * A datagram once transmitted may arrive at any later time any number of times,
 * or never; so may an acknowledgement. Loss needs no step of its own.
 */
module ReliableDelivery {
  import opened Basics
  import opened WireTypes
  import Receiver
  import Sender

  datatype Config = Config(interval: int, maxAttempts: int)

  datatype World = World(
    pending: Sender.Table,
    history: Receiver.History,           // the receiver, and what it accepted or gave up on
    data: set<(int64, Bytes)>,           // every datagram ever transmitted
    acks: set<SummaryAck>,               // every acknowledgement ever transmitted
    acked: set<int64>,                   // left pending by an acknowledgement
    cancelled: set<int64>,               // left pending by Cancel
    givenUp: set<int64>,                 // left pending by exhausting its attempts
    sent: map<int64, nat>,               // transmissions since the latest Send of each number
    times: map<int64, seq<int>>)         // and when they were

  datatype Event =
    | Send(seqNo: int64, payload: Bytes, now: int)
    | Cancel(seqNo: int64)
    | Retransmit(now: int)
    | Deliver(datagram: (int64, Bytes))
    | EmitAck
    | DeliverAck(ack: SummaryAck)

  const INIT := World(map[], Receiver.History(Receiver.Recv(0, {}), [], {}), {}, {}, {}, {}, {}, map[], map[])

  /** Only what was transmitted can arrive; a session's ack loop skips an empty acknowledgement. */
  ghost predicate Enabled(w: World, e: Event) {
    match e
    case Deliver(d) => d in w.data
    case DeliverAck(a) => a in w.acks
    case EmitAck => Receiver.AckOf(w.history.recv).received != []
    case _ => true
  }

  ghost function Next(c: Config, w: World, e: Event): World
    requires Receiver.HistoryOk(w.history)
  {
    match e
    case Send(s, payload, now) =>
      w.(pending := Sender.Track(w.pending, s, payload, now),
         data := w.data + {(s, payload)},
         acked := w.acked - {s}, cancelled := w.cancelled - {s}, givenUp := w.givenUp - {s},
         sent := w.sent[s := 1], times := w.times[s := [now]])
    case Cancel(s) =>
      w.(pending := w.pending - {s},
         cancelled := if s in w.pending then w.cancelled + {s} else w.cancelled)
    case Retransmit(now) =>
      var again := Sender.Resent(w.pending, now, c.interval, c.maxAttempts);
      var dropped := Sender.Expired(w.pending, now, c.interval, c.maxAttempts);
      w.(pending := Sender.Tick(w.pending, now, c.interval, c.maxAttempts),
         data := w.data + (set s | s in again && s in w.pending :: (s, w.pending[s].payload)),
         givenUp := w.givenUp + dropped,
         sent := map s | s in w.sent :: if s in again then w.sent[s] + 1 else w.sent[s],
         times := map s | s in w.times :: if s in again then w.times[s] + [now] else w.times[s])
    case Deliver(d) =>
      w.(history := Receiver.Arrive(w.history, d.0))
    case EmitAck =>
      w.(acks := w.acks + {Receiver.AckOf(w.history.recv)})
    case DeliverAck(a) =>
      w.(pending := Sender.Acknowledge(w.pending, a),
         acked := w.acked + (set s | s in w.pending && Receiver.Covers(a.received, s)))
  }

  // --- the invariant --------------------------------------------------------------

  /** Each number ever sent is in exactly one of the four places. */
  ghost predicate Partitioned(w: World) {
    && w.sent.Keys == w.pending.Keys + w.acked + w.cancelled + w.givenUp
    && w.pending.Keys !! w.acked && w.pending.Keys !! w.cancelled && w.pending.Keys !! w.givenUp
    && w.acked !! w.cancelled && w.acked !! w.givenUp && w.cancelled !! w.givenUp
  }

  /** The number of transmissions allowed per Send. */
  function Budget(c: Config): nat {
    if c.maxAttempts > 1 then c.maxAttempts else 1
  }

  ghost predicate Bounded(c: Config, w: World) {
    && (forall s :: s in w.sent ==> 1 <= w.sent[s] <= Budget(c))
    && (forall s :: s in w.pending ==> s in w.sent && w.sent[s] == w.pending[s].attempts)
    && (forall s :: s in w.givenUp ==> s in w.sent && w.sent[s] == Budget(c))
    && (forall s :: s in w.pending ==> (s, w.pending[s].payload) in w.data)
    && (forall d :: d in w.data ==> d.0 in w.sent)
  }

  /** What was acknowledged, or can still be, the receiver has seen; what it accepted was sent. */
  ghost predicate Truthful(w: World) {
    && Receiver.HistoryOk(w.history)
    && (forall s :: s in w.acked ==> Receiver.Seen(w.history.recv, s))
    && (forall a, s :: a in w.acks && Receiver.Covers(a.received, s) ==> Receiver.Seen(w.history.recv, s))
    && (forall s :: s in w.history.accepted ==> s in w.sent)
  }

  ghost predicate Inv(c: Config, w: World) {
    Partitioned(w) && Bounded(c, w) && Truthful(w)
  }

  lemma CappedCovers(ranges: seq<SequenceRange>, s: int)
    requires Receiver.Covers(Receiver.Capped(ranges), s)
    ensures Receiver.Covers(ranges, s)
  {
    var q := Receiver.Capped(ranges);
    var i :| 0 <= i < |q| && Receiver.InRange(q[i], s);
    assert q[i] == ranges[i];
  }

  lemma StepPartitioned(c: Config, w: World, e: Event)
    requires Inv(c, w) && Enabled(w, e)
    ensures Partitioned(Next(c, w, e))
  {
    hide Receiver.Covers, Receiver.HistoryOk, Receiver.Arrive;
  }

  lemma StepBounded(c: Config, w: World, e: Event)
    requires Inv(c, w) && Enabled(w, e)
    ensures Bounded(c, Next(c, w, e))
  {
    hide Receiver.Covers, Receiver.HistoryOk, Receiver.Arrive, Partitioned, Truthful, Sender.Due;
  }

  lemma StepTruthful(c: Config, w: World, e: Event)
    requires Inv(c, w) && Enabled(w, e)
    ensures Truthful(Next(c, w, e))
  {
    match e
    case Deliver(d) =>
      SeenGrows(w.history, d.0);
      Receiver.ArriveKeeps(w.history, d.0);
    case EmitAck =>
      Receiver.AllRangesAreMaximalRuns(w.history.recv);
      forall s | Receiver.Covers(Receiver.AckOf(w.history.recv).received, s)
        ensures Receiver.Seen(w.history.recv, s)
      {
        CappedCovers(Receiver.AllRanges(w.history.recv), s);
      }
    case _ =>
  }

  lemma SeenGrows(h: Receiver.History, seqNo: int64)
    requires Receiver.HistoryOk(h)
    ensures forall s :: Receiver.Seen(h.recv, s) ==> Receiver.Seen(Receiver.Arrive(h, seqNo).recv, s)
    ensures forall s :: s in Receiver.Arrive(h, seqNo).accepted ==> s in h.accepted || s == seqNo
  {
    hide Receiver.Marked;
    Receiver.MarkRefinesSet(h.recv, seqNo);
  }

  /** A run from the start: the worlds it passes through, one event apart. */
  ghost predicate IsRun(c: Config, events: seq<Event>, worlds: seq<World>) {
    && |worlds| == |events| + 1
    && worlds[0] == INIT
    && forall i :: 0 <= i < |events| ==> StepsTo(c, worlds[i], events[i], worlds[i + 1])
  }

  ghost predicate StepsTo(c: Config, w: World, e: Event, w': World) {
    Receiver.HistoryOk(w.history) && Enabled(w, e) && w' == Next(c, w, e)
  }

  /**
   * Safety over all runs: no number is accepted twice; what was acknowledged the
   * receiver had accepted or given up on; every number sent is in exactly one of
   * pending, acknowledged, cancelled and given up; none is transmitted more than
   * max(1, maxAttempts) times per Send, and giving up takes exactly that many.
   */
  lemma {:induction false} RunsAreSafe(c: Config, events: seq<Event>, worlds: seq<World>, n: nat)
    requires IsRun(c, events, worlds) && n < |worlds|
    ensures Inv(c, worlds[n])
    ensures NoDup(worlds[n].history.accepted)
  {
    hide Partitioned, Bounded, Truthful, Next, Enabled;
    if n == 0 {
      InitInv(c);
    } else {
      RunsAreSafe(c, events, worlds, n - 1);
      assert StepsTo(c, worlds[n - 1], events[n - 1], worlds[n]);
      StepPartitioned(c, worlds[n - 1], events[n - 1]);
      StepBounded(c, worlds[n - 1], events[n - 1]);
      StepTruthful(c, worlds[n - 1], events[n - 1]);
    }
    AcceptedOnce(worlds[n]);
  }

  // --- when -------------------------------------------------------------------------

  /** Each time is at least d after the one before it. */
  ghost predicate Spaced(times: seq<int>, d: int) {
    forall i :: 0 <= i < |times| - 1 ==> times[i + 1] - times[i] >= d
  }

  /** The recorded times are spaced, and a pending entry's last one is the time of its last transmission. */
  ghost predicate Timed(c: Config, w: World) {
    && w.times.Keys == w.sent.Keys
    && (forall s :: s in w.times ==> |w.times[s]| == w.sent[s] && Spaced(w.times[s], c.interval))
    && (forall s :: s in w.pending ==>
          s in w.times && w.times[s] != [] && w.times[s][|w.times[s]| - 1] == w.pending[s].lastSent)
  }

  lemma SpacedSnoc(times: seq<int>, t: int, d: int)
    requires Spaced(times, d) && (times != [] ==> times[|times| - 1] + d <= t)
    ensures Spaced(times + [t], d)
  {
  }

  lemma StepTimed(c: Config, w: World, e: Event)
    requires Receiver.HistoryOk(w.history) && Partitioned(w) && Timed(c, w)
    ensures Timed(c, Next(c, w, e))
  {
    hide Receiver.Covers, Receiver.HistoryOk, Receiver.Arrive, Receiver.AckOf, Spaced, Sender.Tick, Sender.Resent,
         Sender.Expired;
    match e
    case Send(s, payload, now) =>
      SpacedSnoc([], now, c.interval);
      assert [] + [now] == [now];
    case Retransmit(now) => TickTimed(c, w, now);
    case _ =>
  }

  lemma TickTimed(c: Config, w: World, now: int)
    requires Receiver.HistoryOk(w.history) && Timed(c, w)
    ensures Timed(c, Next(c, w, Retransmit(now)))
  {
    hide Receiver.HistoryOk, Spaced, Sender.Tick, Sender.Resent, Sender.Expired;
    Sender.TickMeans(w.pending, now, c.interval, c.maxAttempts);
    var w' := Next(c, w, Retransmit(now));
    forall s | s in w.times
      ensures |w'.times[s]| == w'.sent[s] && Spaced(w'.times[s], c.interval)
    {
      if s in w.pending && w.pending[s].lastSent + c.interval <= now {
        SpacedSnoc(w.times[s], now, c.interval);
      }
    }
  }

  lemma {:induction false} RunTimed(c: Config, events: seq<Event>, worlds: seq<World>, n: nat)
    requires IsRun(c, events, worlds) && n < |worlds|
    ensures Timed(c, worlds[n])
  {
    hide Timed, Partitioned, Next, Enabled, Bounded, Truthful;
    if n > 0 {
      RunTimed(c, events, worlds, n - 1);
      RunsAreSafe(c, events, worlds, n - 1);
      assert StepsTo(c, worlds[n - 1], events[n - 1], worlds[n]);
      StepTimed(c, worlds[n - 1], events[n - 1]);
    } else {
      NothingTimed(c);
    }
  }

  lemma NothingTimed(c: Config)
    ensures Timed(c, INIT)
  {
  }

  /**
   * Over all runs, whatever the clock does: any two transmissions of one Send, one after
   * the other, are at least the interval apart, and there is a time for each of them.
   */
  lemma TransmissionsAreSpaced(c: Config, events: seq<Event>, worlds: seq<World>, n: nat, s: int64)
    requires IsRun(c, events, worlds) && n < |worlds| && s in worlds[n].sent
    ensures s in worlds[n].times && |worlds[n].times[s]| == worlds[n].sent[s]
    ensures forall i :: 0 <= i < |worlds[n].times[s]| - 1 ==> worlds[n].times[s][i + 1] - worlds[n].times[s][i] >= c.interval
  {
    RunTimed(c, events, worlds, n);
  }

  /**
   * No tick leaves anything overdue: each number that is pending afterwards was last
   * sent less than an interval ago, and one that is not was given up on.
   */
  lemma TickLeavesNothingOverdue(c: Config, w: World, now: int, s: int64)
    requires Inv(c, w) && Timed(c, w) && c.interval > 0 && s in w.pending
    ensures var w' := Next(c, w, Retransmit(now));
            if s in w'.pending then
              && now - w'.pending[s].lastSent < c.interval
              && (w.pending[s].lastSent + c.interval <= now ==>
                    w'.times[s] == w.times[s] + [now] && w'.pending[s].attempts == w.pending[s].attempts + 1)
            else s in w'.givenUp
  {
    hide Sender.Tick, Sender.Resent, Sender.Expired, Spaced, Truthful;
    Sender.TickMeans(w.pending, now, c.interval, c.maxAttempts);
  }

  lemma InitInv(c: Config)
    ensures Inv(c, INIT)
  {
  }

  lemma AcceptedOnce(w: World)
    requires Truthful(w)
    ensures NoDup(w.history.accepted)
  {
  }

  /** In every run, a number that an acknowledgement takes out of pending has been seen, even if the acknowledgement is stale. */
  lemma AckTakesOnlySeen(c: Config, events: seq<Event>, worlds: seq<World>, n: nat, a: SummaryAck, s: int64)
    requires IsRun(c, events, worlds) && n < |events| && events[n] == DeliverAck(a)
    requires s in worlds[n].pending && s !in worlds[n + 1].pending
    ensures s in worlds[n].history.accepted || s in worlds[n].history.abandoned
  {
    RunsAreSafe(c, events, worlds, n);
    assert StepsTo(c, worlds[n], events[n], worlds[n + 1]);
  }

  /** Only a number that was sent is ever accepted. */
  lemma AcceptedWasSent(c: Config, events: seq<Event>, worlds: seq<World>, n: nat, s: int64)
    requires IsRun(c, events, worlds) && n < |worlds| && s in worlds[n].history.accepted
    ensures exists d :: d in worlds[n].data && d.0 == s
  {
    AcceptedHasDatagram(c, events, worlds, n);
  }

  lemma {:induction false} AcceptedHasDatagram(c: Config, events: seq<Event>, worlds: seq<World>, n: nat)
    requires IsRun(c, events, worlds) && n < |worlds|
    ensures forall s :: s in worlds[n].history.accepted ==> exists d :: d in worlds[n].data && d.0 == s
  {
    if n > 0 {
      AcceptedHasDatagram(c, events, worlds, n - 1);
      RunsAreSafe(c, events, worlds, n - 1);
      var w, e := worlds[n - 1], events[n - 1];
      assert StepsTo(c, w, e, worlds[n]);
      assert w.data <= worlds[n].data;
      if e.Deliver? {
        SeenGrows(w.history, e.datagram.0);
      }
    }
  }

  /**
   * A fresh acknowledgement, when nothing had to be left out of it, leaves pending
   * exactly the numbers the receiver has not seen.
   */
  lemma FreshAckSettles(c: Config, w: World)
    requires Inv(c, w) && |Receiver.AllRanges(w.history.recv)| <= Receiver.MAX_ACK_RANGES
    ensures Next(c, w, DeliverAck(Receiver.AckOf(w.history.recv))).pending.Keys
         == set s | s in w.pending && !Receiver.Seen(w.history.recv, s)
  {
    Receiver.AllRangesAreMaximalRuns(w.history.recv);
  }
}
