/**
 * The octets themselves: which identifier octet stands in front of which field of which
 * message, as the automatic tags of node.asn number them and ITU-T X.690 (8.1.2, 8.1.3
 * and 8.3) writes them, for every message (goimpl/internal/wire/codec.go).
 */
module CodecOctets {
  import opened Basics
  import opened WireTypes
  import opened Ber
  import opened Codec
  import CodecRoundTrip

  /** An identifier octet, the length and the content. */
  function Field(id: byte, content: Bytes): Bytes {
    [id] + LengthOctets(|content|) + content
  }

  /** Lengths: one octet below 128, else a count and the digits, most significant first. */
  lemma LengthLayout(n: nat)
    requires n < 65536
    ensures LengthOctets(n) == if n < 128 then [n]
                               else if n < 256 then [0x81, n]
                               else [0x82, n / 256, n % 256]
  {
    if n >= 256 {
      assert BigEndian(n / 256) == [n / 256] by {
        assert BigEndian(0) == [];
      }
      assert BigEndian(n) == [n / 256, n % 256];
    } else if n >= 128 {
      assert BigEndian(n) == BigEndian(0) + [n];
    }
  }

  /** An integer's content, read as an unsigned number, is the integer, or 256 to its length more if its first bit is set. */
  lemma IntegerLayout(v: int)
    ensures var b := TwosComplement(v);
            b != [] && v == Number(b) - (if b[0] >= 128 then Pow256(|b|) else 0)
  {
    IntegerRoundTrip(v);
  }

  /** Octets are weighed most significant first. */
  lemma NumberLayout(b: Bytes, last: byte)
    ensures Number([]) == 0 && Number(b + [last]) == 256 * Number(b) + last
  {
    assert (b + [last])[..|b|] == b;
  }

  lemma PointerLayout(p: NodePointer)
    ensures PointerOctets(p) == match p
                                case AbsolutePointer(expr) => Field(0x80, expr)
                                case OffsetPointer(delta) => Field(0x81, TwosComplement(delta))
                                case NonePointer => Field(0x82, [])
  {
  }

  lemma ValueLayout(v: NodeValue)
    ensures ValueOctets(v) == match v
                              case Integer32Value(x) => Field(0x80, TwosComplement(x))
                              case Unsigned32Value(x) => Field(0x81, TwosComplement(x))
                              case Counter32Value(x) => Field(0x82, TwosComplement(x))
                              case Counter64Value(x) => Field(0x83, TwosComplement(x))
                              case TimeTicksValue(x) => Field(0x84, TwosComplement(x))
                              case OctetStringValue(b) => Field(0x85, b)
                              case RealValue(bits) => Field(0x86, bits)
                              case NoValue => Field(0x87, [])
  {
  }

  lemma QueryPartsLayout(m: CollectionMode, a: AggregationMethod)
    ensures CollectionOctets(m) == match m
                                   case CollectOnce => Field(0x80, [])
                                   case CollectInterval(i) => Field(0x81, TwosComplement(i))
                                   case CollectOnChange => Field(0x82, [])
    ensures AggregationOctets(a) == match a
                                    case AggMin => Field(0x80, [])
                                    case AggMax => Field(0x81, [])
                                    case AggMean => Field(0x82, [])
                                    case AggStdDev => Field(0x83, [])
                                    case AggPercentile(p) => Field(0x84, TwosComplement(p))
  {
  }

  /** Elements of each kind of list, one after the other. */
  lemma ElementsLayout(edits: seq<SetEdit>, e: SetEdit, targets: seq<Bytes>, t: Bytes, nodes: seq<WireNode>, n: WireNode,
                       ranges: seq<SequenceRange>, r: SequenceRange)
    ensures EditElements([]) == [] && TargetElements([]) == [] && NodeElements([]) == [] && RangeElements([]) == []
    ensures EditElements(edits + [e]) == EditElements(edits) + Field(0x30,
              Field(0x80, e.target)
              + (if e.newValue.Some? then Field(0xa1, ValueOctets(e.newValue.value)) else [])
              + (if e.newFirstChild.Some? then Field(0xa2, PointerOctets(e.newFirstChild.value)) else [])
              + (if e.newNextSibling.Some? then Field(0xa3, PointerOctets(e.newNextSibling.value)) else [])
              + (if e.newParent.Some? then Field(0x84, e.newParent.value) else []))
    ensures TargetElements(targets + [t]) == TargetElements(targets) + Field(0x0c, t)
    ensures NodeElements(nodes + [n]) == NodeElements(nodes) + Field(0x30,
              Field(0x80, n.key) + Field(0xa1, ValueOctets(n.value))
              + Field(0xa2, PointerOctets(n.firstChild)) + Field(0xa3, PointerOctets(n.nextSibling)))
    ensures RangeElements(ranges + [r]) == RangeElements(ranges) + Field(0x30,
              Field(0x80, TwosComplement(r.first)) + Field(0x81, TwosComplement(r.last)))
  {
    hide ValueOctets, PointerOctets, TwosComplement, LengthOctets;
    assert (edits + [e])[..|edits|] == edits;
    assert (targets + [t])[..|targets|] == targets;
    assert (nodes + [n])[..|nodes|] == nodes;
    assert (ranges + [r])[..|ranges|] == ranges;
  }

  /** Every message, field by field. */
  lemma MessageLayout(m: Message)
    ensures MessageOctets(m) == match m
      case MsgGet(g) => Field(0xa0, Field(0x80, TwosComplement(g.sequenceNumber)) + Field(0xa1, PointerOctets(g.target)))
      case MsgSet(s) => Field(0xa1, Field(0x80, TwosComplement(s.sequenceNumber)) + Field(0xa1, EditElements(s.edits)))
      case MsgCreate(c) => Field(0xa2,
        Field(0x80, TwosComplement(c.sequenceNumber)) + Field(0x81, c.key)
        + (if c.value.Some? then Field(0xa2, ValueOctets(c.value.value)) else [])
        + (if c.parent.Some? then Field(0x83, c.parent.value) else []))
      case MsgQuery(q) => Field(0xa3,
        Field(0x80, TwosComplement(q.sequenceNumber)) + Field(0x81, q.nodeExpression)
        + Field(0xa2, CollectionOctets(q.collectionMode))
        + (if q.aggregationInterval.Some? then Field(0x83, TwosComplement(q.aggregationInterval.value)) else [])
        + (if q.aggregationMethod.Some? then Field(0xa4, AggregationOctets(q.aggregationMethod.value)) else [])
        + Field(0x85, TwosComplement(q.transferInterval)))
      case MsgResponse(r) => Field(0xa4,
        Field(0x80, TwosComplement(r.sequenceNumber)) + Field(0x81, TwosComplement(r.inReplyTo))
        + Field(0x82, if r.error then [0xff] else [0])
        + (if r.errorNode.Some? then Field(0xa3, PointerOctets(r.errorNode.value)) else [])
        + Field(0xa4, NodeElements(r.nodes)))
      case MsgSummaryAck(a) => Field(0xa5, Field(0xa0, RangeElements(a.received)))
      case MsgDelete(d) => Field(0xa6, Field(0x80, TwosComplement(d.sequenceNumber)) + Field(0xa1, TargetElements(d.targets)))
  {
    hide ValueOctets, PointerOctets, TwosComplement, LengthOctets, EditElements, NodeElements, RangeElements,
         TargetElements,
         CollectionOctets, AggregationOctets;
  }

  // --- what is read of octets that no encoder here writes ----------------------------------------

  /** A length may be written in any number of digits, leading zeros included. */
  lemma LongLengthsRead(id: byte, digits: Bytes, content: Bytes, rest: Bytes)
    requires id % 32 != 31 && 0 < |digits| < 128 && Number(digits) == |content|
    ensures DecodeTlv([id, 0x80 + |digits|] + digits + content + rest)
         == Ok((Tlv(id / 64, (id / 32) % 2 == 1, id % 32, content), rest))
  {
    hide Number, SplitContent;
    var k: byte := 0x80 + |digits|;
    HeaderParts([id, k], digits, content + rest);
    assert [id, k] + digits + content + rest == [id, k] + digits + (content + rest);
    SplitJoined(id, content, rest);
  }

  lemma HeaderParts(head: Bytes, digits: Bytes, tail: Bytes)
    requires |head| == 2
    ensures var data := head + digits + tail;
            |data| >= 2 + |digits| && data[0] == head[0] && data[1] == head[1]
            && data[2..2 + |digits|] == digits && data[2 + |digits|..] == tail
  {
  }

  /** High tag numbers, indefinite lengths and octets that end too early are refused. */
  lemma HeadersRefused(data: Bytes)
    ensures |data| < 2 ==> DecodeTlv(data) == Err(Truncated)
    ensures |data| >= 2 && data[0] % 32 == 31 ==> DecodeTlv(data) == Err(HighTagNumber)
    ensures |data| >= 2 && data[0] % 32 != 31 && data[1] == 0x80 ==> DecodeTlv(data) == Err(IndefiniteLength)
    ensures |data| >= 2 && data[0] % 32 != 31 && data[1] < 0x80 && |data| - 2 < data[1] ==> DecodeTlv(data) == Err(Truncated)
  {
  }

  /** An integer may have needless leading octets, and a boolean is true for any octet but zero. */
  lemma ContentsRead(b: Bytes)
    ensures DecodeInt(b) == if b == [] then Err(EmptyInteger)
                            else Ok(Number(b) - (if b[0] >= 128 then Pow256(|b|) else 0))
    ensures DecodeBool(b) == if |b| == 1 then Ok(b != [0]) else Err(BadBoolean)
  {
  }

  /** A message is all there is: anything behind it is refused. */
  lemma NothingTrails(m: Message, extra: Bytes)
    requires |MessageOctets(m)| <= MAX_INT64 && extra != []
    ensures DecodeMessage(MessageOctets(m) + extra) == Err(TrailingBytes)
  {
    hide EncodeTlv, DecodeTlv, MessageOctets;
    var tag, fields := CodecRoundTrip.Envelope(m);
    TlvRoundTrip(CONTEXT, true, tag, fields, extra);
    hide Explicit;
  }

  /** So is a message of any other tag. */
  lemma OtherTagsRefused(constructed: bool, tag: nat, content: Bytes)
    requires 7 <= tag < 31 && |content| <= MAX_INT64
    ensures DecodeMessage(EncodeTlv(CONTEXT, constructed, tag, content)) == Err(WrongClassOrTag)
  {
    hide EncodeTlv, DecodeTlv;
    TlvRoundTrip(CONTEXT, constructed, tag, content, []);
    assert EncodeTlv(CONTEXT, constructed, tag, content) + [] == EncodeTlv(CONTEXT, constructed, tag, content);
  }
}
