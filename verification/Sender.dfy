/**
 * The sending half of goimpl/internal/reliability/reliability.go: what awaits
 * acknowledgement, and what a retransmission tick does with it. The clock is a
 * parameter; handing a payload to the network is a returned value.
 */
module Sender {
  import opened Basics
  import opened WireTypes
  import Receiver

  datatype Pending = Pending(payload: Bytes, lastSent: int, attempts: nat)

  type Table = map<int64, Pending>

  predicate Due(p: Pending, now: int, interval: int) {
    now - p.lastSent >= interval
  }

  function Track(t: Table, seqNo: int64, payload: Bytes, now: int): Table {
    t[seqNo := Pending(payload, now, 1)]
  }

  function Acknowledge(t: Table, ack: SummaryAck): Table {
    map s | s in t && !Receiver.Covers(ack.received, s) :: t[s]
  }

  /** The entries a tick drops: due, with every attempt used. */
  function Expired(t: Table, now: int, interval: int, maxAttempts: int): set<int64> {
    set s | s in t && Due(t[s], now, interval) && t[s].attempts >= maxAttempts
  }

  /** The entries a tick sends again. */
  function Resent(t: Table, now: int, interval: int, maxAttempts: int): set<int64> {
    set s | s in t && Due(t[s], now, interval) && t[s].attempts < maxAttempts
  }

  function Tick(t: Table, now: int, interval: int, maxAttempts: int): Table {
    map s | s in t && s !in Expired(t, now, interval, maxAttempts) ::
      if Due(t[s], now, interval) then Pending(t[s].payload, now, t[s].attempts + 1) else t[s]
  }

  lemma DueMeans(p: Pending, now: int, interval: int)
    ensures Due(p, now, interval) <==> p.lastSent + interval <= now
  {
  }

  /**
   * A tick sends again exactly what was last sent an interval ago or more and has
   * attempts left, gives up exactly on what has none, and leaves the rest alone.
   */
  lemma TickMeans(t: Table, now: int, interval: int, maxAttempts: int)
    ensures forall s :: s in Resent(t, now, interval, maxAttempts) <==>
              s in t && t[s].lastSent + interval <= now && t[s].attempts < maxAttempts
    ensures forall s :: s in Expired(t, now, interval, maxAttempts) <==>
              s in t && t[s].lastSent + interval <= now && t[s].attempts >= maxAttempts
    ensures forall s :: s in Tick(t, now, interval, maxAttempts) <==>
              s in t && (t[s].lastSent + interval <= now ==> t[s].attempts < maxAttempts)
    ensures forall s :: s in Tick(t, now, interval, maxAttempts) ==>
              Tick(t, now, interval, maxAttempts)[s] ==
                if t[s].lastSent + interval <= now then Pending(t[s].payload, now, t[s].attempts + 1) else t[s]
  {
  }

  class Sender {
    var pending: Table
    const retransmitInterval: int
    const maxAttempts: int

    constructor (retransmitInterval: int, maxAttempts: int)
      ensures pending == map[]
      ensures this.retransmitInterval == retransmitInterval && this.maxAttempts == maxAttempts
    {
      pending := map[];
      this.retransmitInterval, this.maxAttempts := retransmitInterval, maxAttempts;
    }

    /** Send: tracked first, then handed to the network. */
    method Send(seqNo: int64, payload: Bytes, now: int) returns (transmitted: Bytes)
      modifies this
      ensures pending == Track(old(pending), seqNo, payload, now)
      ensures transmitted == payload
    {
      pending := pending[seqNo := Pending(payload, now, 1)];
      transmitted := payload;
    }

    method Cancel(seqNo: int64)
      modifies this
      ensures pending == old(pending) - {seqNo}
    {
      pending := pending - {seqNo};
    }

    /** HandleAck: each pending number is tried against each range. */
    method HandleAck(ack: SummaryAck)
      modifies this
      ensures pending == Acknowledge(old(pending), ack)
    {
      var todo := pending.Keys;
      while todo != {}
        invariant todo <= old(pending).Keys
        invariant pending == map s | s in old(pending) && (s in todo || !Receiver.Covers(ack.received, s)) :: old(pending)[s]
        decreases todo
      {
        var s :| s in todo;
        var covered := Covered(ack.received, s);
        todo := todo - {s};
        if covered {
          pending := pending - {s};
        }
      }
    }

    /** retransmitDue: what to send again and what was given up on. */
    method RetransmitDue(now: int) returns (toResend: map<int64, Bytes>, toGiveUp: set<int64>)
      modifies this
      ensures pending == Tick(old(pending), now, retransmitInterval, maxAttempts)
      ensures toGiveUp == Expired(old(pending), now, retransmitInterval, maxAttempts)
      ensures toResend == map s | s in Resent(old(pending), now, retransmitInterval, maxAttempts) :: old(pending)[s].payload
      ensures forall s :: s in toResend <==>
                s in old(pending) && old(pending)[s].lastSent + retransmitInterval <= now && old(pending)[s].attempts < maxAttempts
      ensures forall s :: s in toGiveUp <==>
                s in old(pending) && old(pending)[s].lastSent + retransmitInterval <= now && old(pending)[s].attempts >= maxAttempts
      ensures forall s :: s in toResend ==>
                s in pending && pending[s] == Pending(toResend[s], now, old(pending)[s].attempts + 1)
                && toResend[s] == old(pending)[s].payload
      ensures pending.Keys == old(pending).Keys - toGiveUp
      ensures forall s :: s in pending && s !in toResend ==> pending[s] == old(pending)[s]
    {
      hide Due, Tick, Resent, Expired;
      ghost var t := pending;
      TickMeans(t, now, retransmitInterval, maxAttempts);
      ghost var left, again, gone := Tick(t, now, retransmitInterval, maxAttempts),
                                     Resent(t, now, retransmitInterval, maxAttempts),
                                     Expired(t, now, retransmitInterval, maxAttempts);
      var todo := pending.Keys;
      toResend, toGiveUp := map[], {};
      while todo != {}
        invariant todo <= t.Keys
        invariant forall s :: s in toGiveUp <==> s in gone && s !in todo
        invariant forall s :: s in toResend <==> s in again && s !in todo
        invariant forall s :: s in toResend ==> toResend[s] == t[s].payload
        invariant forall s :: s in pending <==> s in todo || s in left
        invariant forall s :: s in pending ==> pending[s] == if s in todo then t[s] else left[s]
        decreases todo
      {
        var s :| s in todo;
        todo := todo - {s};
        var p := pending[s];
        DueMeans(p, now, retransmitInterval);
        if Due(p, now, retransmitInterval) {
          if p.attempts >= maxAttempts {
            toGiveUp := toGiveUp + {s};
            pending := pending - {s};
          } else {
            pending := pending[s := Pending(p.payload, now, p.attempts + 1)];
            toResend := toResend[s := p.payload];
          }
        }
      }
    }
  }

  method Covered(ranges: seq<SequenceRange>, s: int64) returns (covered: bool)
    ensures covered == Receiver.Covers(ranges, s)
  {
    for i := 0 to |ranges|
      invariant forall j :: 0 <= j < i ==> !Receiver.InRange(ranges[j], s)
    {
      if s >= ranges[i].first && s <= ranges[i].last {
        assert Receiver.InRange(ranges[i], s);
        return true;
      }
    }
    return false;
  }
}
