/**
 * Why one acknowledgement always fits a datagram: the cap of 64 ranges
 * (goimpl/internal/reliability/reliability.go:33-37) against the octets the codec
 * writes for them.
 */
module AckSize {
  import opened Basics
  import opened WireTypes
  import opened Ber
  import opened Codec
  import Receiver

  const MAX_SEQ: int := 0x8000_0000_0000   // 2^47: session numbers below this take six octets

  lemma LengthOctetsSize(n: nat)
    requires n < 65536
    ensures |LengthOctets(n)| <= (if n < 128 then 1 else 3)
  {
    assert Pow256(2) == 65536;
    BigEndianSize(n, 2);
  }

  lemma SixOctets(v: int)
    requires 0 < v < MAX_SEQ
    ensures |TwosComplement(v)| <= 6
  {
    var b := BigEndian(v);
    assert Pow256(5) == 0x100_0000_0000 && Pow256(6) == 0x1_0000_0000_0000 by {
      assert Pow256(2) == 65536;
      assert Pow256(4) == 0x1_0000_0000;
    }
    BigEndianSize(v, 6);
    if |b| == 6 && b[0] >= 128 {
      assert b == [b[0]] + b[1..];
      NumberBigEndian(v);
      NumberCons(b[0], b[1..]);
    }
  }

  lemma RangeElementSize(x: SequenceRange)
    requires 0 < x.first < MAX_SEQ && 0 < x.last < MAX_SEQ
    ensures |EncodeTlv(UNIVERSAL, true, TAG_SEQUENCE, RangeFields(x))| <= 18
  {
    SixOctets(x.first);
    SixOctets(x.last);
  }

  lemma {:induction false} RangeElementsSize(xs: seq<SequenceRange>)
    requires forall i :: 0 <= i < |xs| ==> 0 < xs[i].first < MAX_SEQ && 0 < xs[i].last < MAX_SEQ
    ensures |RangeElements(xs)| <= 18 * |xs|
  {
    if xs != [] {
      hide RangeFields, EncodeTlv;
      var n := |xs| - 1;
      RangeElementsSize(xs[..n]);
      RangeElementSize(xs[n]);
    }
  }

  /** A receiver's acknowledgement, marshalled as a whole message, takes at most 1160 octets. */
  lemma AckFitsDatagram(r: Receiver.Recv)
    requires Receiver.Valid(r)
    requires forall s :: Receiver.Seen(r, s) ==> s < MAX_SEQ
    ensures |MessageOctets(MsgSummaryAck(Receiver.AckOf(r)))| <= 1160
  {
    var all := Receiver.AllRanges(r);
    var ranges := Receiver.AckOf(r).received;
    Receiver.AllRangesAreMaximalRuns(r);
    forall i | 0 <= i < |ranges|
      ensures 0 < ranges[i].first < MAX_SEQ && 0 < ranges[i].last < MAX_SEQ
    {
      assert ranges[i] == all[i];
      assert Receiver.InRange(all[i], all[i].first) && Receiver.Covers(all, all[i].first);
      assert Receiver.InRange(all[i], all[i].last) && Receiver.Covers(all, all[i].last);
      assert Receiver.Seen(r, all[i].first) && Receiver.Seen(r, all[i].last);
    }
    RangeElementsSize(ranges);
    var inner := RangeElements(ranges);
    LengthOctetsSize(|inner|);
    LengthOctetsSize(|AckFields(SummaryAck(ranges))|);
  }
}
