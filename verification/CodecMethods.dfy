/**
 * The codec as it runs: encoders append to a buffer, nested values going through
 * a buffer of their own; decoders loop, consuming what is left. Each is proved to
 * write or return what its function in Codec says.
 */
module CodecMethods {
  import opened Basics
  import opened WireTypes
  import opened Ber
  import opened Codec

  // --- writing ------------------------------------------------------------------

  method WriteInt(buf: Buffer, tag: nat, v: int)
    requires tag < 31
    modifies buf
    ensures buf.data == old(buf.data) + IntField(tag, v)
  {
    hide EncodeTlv, TwosComplement;
    var content := MinimalTwosComplement(v);
    WriteTlv(buf, CONTEXT, false, tag, content);
  }

  method WriteBytes(buf: Buffer, tag: nat, v: Bytes)
    requires tag < 31
    modifies buf
    ensures buf.data == old(buf.data) + BytesField(tag, v)
  {
    WriteTlv(buf, CONTEXT, false, tag, v);
  }

  method WriteExplicit(buf: Buffer, tag: nat, inner: Buffer)
    requires tag < 31 && inner != buf
    modifies buf
    ensures buf.data == old(buf.data) + Explicit(tag, inner.data)
  {
    WriteTlv(buf, CONTEXT, true, tag, inner.data);
  }

  method WritePointer(buf: Buffer, x: NodePointer)
    modifies buf
    ensures buf.data == old(buf.data) + PointerOctets(x)
  {
    hide EncodeTlv, TwosComplement;
    match x
    case AbsolutePointer(expr) => WriteBytes(buf, 0, expr);
    case OffsetPointer(delta) => WriteInt(buf, 1, delta);
    case NonePointer => WriteBytes(buf, 2, []);
  }

  method WriteValue(buf: Buffer, x: NodeValue)
    modifies buf
    ensures buf.data == old(buf.data) + ValueOctets(x)
  {
    hide EncodeTlv, TwosComplement;
    match x
    case Integer32Value(v) => WriteInt(buf, 0, v);
    case Unsigned32Value(v) => WriteInt(buf, 1, v);
    case Counter32Value(v) => WriteInt(buf, 2, v);
    case Counter64Value(v) => WriteInt(buf, 3, v);
    case TimeTicksValue(v) => WriteInt(buf, 4, v);
    case OctetStringValue(b) => WriteBytes(buf, 5, b);
    case RealValue(b) => WriteBytes(buf, 6, b);
    case NoValue => WriteBytes(buf, 7, []);
  }

  method WriteAggregation(buf: Buffer, x: AggregationMethod)
    modifies buf
    ensures buf.data == old(buf.data) + AggregationOctets(x)
  {
    hide EncodeTlv, TwosComplement;
    match x
    case AggMin => WriteBytes(buf, 0, []);
    case AggMax => WriteBytes(buf, 1, []);
    case AggMean => WriteBytes(buf, 2, []);
    case AggStdDev => WriteBytes(buf, 3, []);
    case AggPercentile(p) => WriteInt(buf, 4, p);
  }

  method WriteCollection(buf: Buffer, x: CollectionMode)
    modifies buf
    ensures buf.data == old(buf.data) + CollectionOctets(x)
  {
    hide EncodeTlv, TwosComplement;
    match x
    case CollectOnce => WriteBytes(buf, 0, []);
    case CollectInterval(i) => WriteInt(buf, 1, i);
    case CollectOnChange => WriteBytes(buf, 2, []);
  }

  /** writeExplicitPointer. */
  method WriteExplicitPointer(buf: Buffer, tag: nat, x: NodePointer)
    requires tag < 31
    modifies buf
    ensures buf.data == old(buf.data) + Explicit(tag, PointerOctets(x))
  {
    hide EncodeTlv, PointerOctets;
    var inner := new Buffer();
    WritePointer(inner, x);
    assert inner.data == PointerOctets(x);
    WriteExplicit(buf, tag, inner);
  }

  /** writeExplicitValue. */
  method WriteExplicitValue(buf: Buffer, tag: nat, x: NodeValue)
    requires tag < 31
    modifies buf
    ensures buf.data == old(buf.data) + Explicit(tag, ValueOctets(x))
  {
    hide EncodeTlv, ValueOctets;
    var inner := new Buffer();
    WriteValue(inner, x);
    assert inner.data == ValueOctets(x);
    WriteExplicit(buf, tag, inner);
  }

  method WriteNodeFields(buf: Buffer, n: WireNode)
    modifies buf
    ensures buf.data == old(buf.data) + NodeFields(n)
  {
    hide EncodeTlv, BytesField, Explicit, ValueOctets, PointerOctets;
    WriteBytes(buf, 0, n.key);
    WriteExplicitValue(buf, 1, n.value);
    WriteExplicitPointer(buf, 2, n.firstChild);
    WriteExplicitPointer(buf, 3, n.nextSibling);
  }

  method WriteSetEditFields(buf: Buffer, e: SetEdit)
    modifies buf
    ensures buf.data == old(buf.data) + SetEditFields(e)
  {
    hide EncodeTlv, BytesField, Explicit, ValueOctets, PointerOctets;
    WriteBytes(buf, 0, e.target);
    if e.newValue.Some? {
      WriteExplicitValue(buf, 1, e.newValue.value);
    }
    assert buf.data == old(buf.data) + (BytesField(0, e.target) + OptValue(1, e.newValue));
    if e.newFirstChild.Some? {
      WriteExplicitPointer(buf, 2, e.newFirstChild.value);
    }
    if e.newNextSibling.Some? {
      WriteExplicitPointer(buf, 3, e.newNextSibling.value);
    }
    assert buf.data == old(buf.data) + (BytesField(0, e.target) + OptValue(1, e.newValue)
                       + OptPointer(2, e.newFirstChild) + OptPointer(3, e.newNextSibling));
    if e.newParent.Some? {
      WriteBytes(buf, 4, e.newParent.value);
    }
  }

  method WriteRangeFields(buf: Buffer, r: SequenceRange)
    modifies buf
    ensures buf.data == old(buf.data) + RangeFields(r)
  {
    hide IntField;
    WriteInt(buf, 0, r.first);
    WriteInt(buf, 1, r.last);
  }

  method WriteEditElements(buf: Buffer, xs: seq<SetEdit>)
    modifies buf
    ensures buf.data == old(buf.data) + EditElements(xs)
  {
    hide EncodeTlv, SetEditFields;
    for i := 0 to |xs|
      invariant buf.data == old(buf.data) + EditElements(xs[..i])
    {
      assert xs[..i + 1][..i] == xs[..i];
      var inner := new Buffer();
      WriteSetEditFields(inner, xs[i]);
      assert inner.data == SetEditFields(xs[i]);
      WriteTlv(buf, UNIVERSAL, true, TAG_SEQUENCE, inner.data);
    }
    assert xs[..|xs|] == xs;
  }

  method WriteTargetElements(buf: Buffer, xs: seq<Bytes>)
    modifies buf
    ensures buf.data == old(buf.data) + TargetElements(xs)
  {
    hide EncodeTlv;
    for i := 0 to |xs|
      invariant buf.data == old(buf.data) + TargetElements(xs[..i])
    {
      assert xs[..i + 1][..i] == xs[..i];
      WriteTlv(buf, UNIVERSAL, false, TAG_UTF8STRING, xs[i]);
    }
    assert xs[..|xs|] == xs;
  }

  method WriteNodeElements(buf: Buffer, xs: seq<WireNode>)
    modifies buf
    ensures buf.data == old(buf.data) + NodeElements(xs)
  {
    hide EncodeTlv, NodeFields;
    for i := 0 to |xs|
      invariant buf.data == old(buf.data) + NodeElements(xs[..i])
    {
      assert xs[..i + 1][..i] == xs[..i];
      var inner := new Buffer();
      WriteNodeFields(inner, xs[i]);
      assert inner.data == NodeFields(xs[i]);
      WriteTlv(buf, UNIVERSAL, true, TAG_SEQUENCE, inner.data);
    }
    assert xs[..|xs|] == xs;
  }

  method WriteRangeElements(buf: Buffer, xs: seq<SequenceRange>)
    modifies buf
    ensures buf.data == old(buf.data) + RangeElements(xs)
  {
    hide EncodeTlv, RangeFields;
    for i := 0 to |xs|
      invariant buf.data == old(buf.data) + RangeElements(xs[..i])
    {
      assert xs[..i + 1][..i] == xs[..i];
      var inner := new Buffer();
      WriteRangeFields(inner, xs[i]);
      assert inner.data == RangeFields(xs[i]);
      WriteTlv(buf, UNIVERSAL, true, TAG_SEQUENCE, inner.data);
    }
    assert xs[..|xs|] == xs;
  }

  method WriteGetFields(buf: Buffer, g: Get)
    modifies buf
    ensures buf.data == old(buf.data) + GetFields(g)
  {
    hide IntField, Explicit;
    WriteInt(buf, 0, g.sequenceNumber);
    WriteExplicitPointer(buf, 1, g.target);
  }

  method WriteSetFields(buf: Buffer, s: Set)
    modifies buf
    ensures buf.data == old(buf.data) + SetFields(s)
  {
    hide IntField, Explicit, EditElements;
    WriteInt(buf, 0, s.sequenceNumber);
    var inner := new Buffer();
    WriteEditElements(inner, s.edits);
    assert inner.data == EditElements(s.edits);
    WriteExplicit(buf, 1, inner);
  }

  method WriteDeleteFields(buf: Buffer, d: Delete)
    modifies buf
    ensures buf.data == old(buf.data) + DeleteFields(d)
  {
    hide IntField, Explicit, TargetElements;
    WriteInt(buf, 0, d.sequenceNumber);
    var inner := new Buffer();
    WriteTargetElements(inner, d.targets);
    assert inner.data == TargetElements(d.targets);
    WriteExplicit(buf, 1, inner);
  }

  method WriteCreateFields(buf: Buffer, c: Create)
    modifies buf
    ensures buf.data == old(buf.data) + CreateFields(c)
  {
    hide IntField, BytesField, Explicit, ValueOctets;
    WriteInt(buf, 0, c.sequenceNumber);
    WriteBytes(buf, 1, c.key);
    if c.value.Some? {
      WriteExplicitValue(buf, 2, c.value.value);
    }
    if c.parent.Some? {
      WriteBytes(buf, 3, c.parent.value);
    }
  }

  method WriteQueryFields(buf: Buffer, q: Query)
    modifies buf
    ensures buf.data == old(buf.data) + QueryFields(q)
  {
    hide EncodeTlv, IntField, BytesField, Explicit, CollectionOctets, AggregationOctets;
    WriteInt(buf, 0, q.sequenceNumber);
    WriteBytes(buf, 1, q.nodeExpression);
    var mode := new Buffer();
    WriteCollection(mode, q.collectionMode);
    assert mode.data == CollectionOctets(q.collectionMode);
    WriteExplicit(buf, 2, mode);
    if q.aggregationInterval.Some? {
      WriteInt(buf, 3, q.aggregationInterval.value);
    }
    if q.aggregationMethod.Some? {
      var method_ := new Buffer();
      WriteAggregation(method_, q.aggregationMethod.value);
      assert method_.data == AggregationOctets(q.aggregationMethod.value);
      WriteExplicit(buf, 4, method_);
    }
    WriteInt(buf, 5, q.transferInterval);
  }

  method WriteResponseFields(buf: Buffer, r: Response)
    modifies buf
    ensures buf.data == old(buf.data) + ResponseFields(r)
  {
    hide IntField, BytesField, Explicit, NodeElements;
    WriteInt(buf, 0, r.sequenceNumber);
    WriteInt(buf, 1, r.inReplyTo);
    WriteBytes(buf, 2, if r.error then [0xff] else [0]);
    if r.errorNode.Some? {
      WriteExplicitPointer(buf, 3, r.errorNode.value);
    }
    var inner := new Buffer();
    WriteNodeElements(inner, r.nodes);
    assert inner.data == NodeElements(r.nodes);
    WriteExplicit(buf, 4, inner);
  }

  method WriteAckFields(buf: Buffer, a: SummaryAck)
    modifies buf
    ensures buf.data == old(buf.data) + AckFields(a)
  {
    var inner := new Buffer();
    WriteRangeElements(inner, a.received);
    assert inner.data == RangeElements(a.received);
    WriteExplicit(buf, 0, inner);
  }

  method MarshalMessage(m: Message) returns (octets: Bytes)
    ensures octets == MessageOctets(m)
  {
    hide EncodeTlv, GetFields, SetFields, CreateFields, QueryFields, ResponseFields, AckFields, DeleteFields;
    var buf := new Buffer();
    var fields := new Buffer();
    match m {
      case MsgGet(g) =>
        WriteGetFields(fields, g);
        assert fields.data == GetFields(g);
        WriteExplicit(buf, 0, fields);
      case MsgSet(s) =>
        WriteSetFields(fields, s);
        assert fields.data == SetFields(s);
        WriteExplicit(buf, 1, fields);
      case MsgCreate(c) =>
        WriteCreateFields(fields, c);
        assert fields.data == CreateFields(c);
        WriteExplicit(buf, 2, fields);
      case MsgQuery(q) =>
        WriteQueryFields(fields, q);
        assert fields.data == QueryFields(q);
        WriteExplicit(buf, 3, fields);
      case MsgResponse(r) =>
        WriteResponseFields(fields, r);
        assert fields.data == ResponseFields(r);
        WriteExplicit(buf, 4, fields);
      case MsgSummaryAck(a) =>
        WriteAckFields(fields, a);
        assert fields.data == AckFields(a);
        WriteExplicit(buf, 5, fields);
      case MsgDelete(d) =>
        WriteDeleteFields(fields, d);
        assert fields.data == DeleteFields(d);
        WriteExplicit(buf, 6, fields);
    }
    octets := buf.data;
    assert octets == MessageOctets(m);
  }

  // --- reading ------------------------------------------------------------------

  method ReadSetEditOptions(start: SetEdit, content: Bytes) returns (r: Result<SetEdit, WireError>)
    ensures r == DecodeSetEditOptions(start, content)
  {
    hide DecodeTlv, SetEditOption;
    var x, rest := start, content;
    while rest != []
      invariant DecodeSetEditOptions(start, content) == DecodeSetEditOptions(x, rest)
      decreases |rest|
    {
      var next :- ReadTlv(rest);
      var t := next.0;
      rest := next.1;
      var x' :- SetEditOption(x, t);
      x := x';
    }
    return Ok(x);
  }

  method ReadCreateOptions(start: Create, content: Bytes) returns (r: Result<Create, WireError>)
    ensures r == DecodeCreateOptions(start, content)
  {
    hide DecodeTlv, CreateOption;
    var x, rest := start, content;
    while rest != []
      invariant DecodeCreateOptions(start, content) == DecodeCreateOptions(x, rest)
      decreases |rest|
    {
      var next :- ReadTlv(rest);
      var t := next.0;
      rest := next.1;
      var x' :- CreateOption(x, t);
      x := x';
    }
    return Ok(x);
  }

  method ReadQueryOptions(start: Query, content: Bytes) returns (r: Result<Query, WireError>)
    ensures r == DecodeQueryOptions(start, content)
  {
    hide DecodeTlv, QueryOption;
    var x, rest := start, content;
    while rest != []
      invariant DecodeQueryOptions(start, content) == DecodeQueryOptions(x, rest)
      decreases |rest|
    {
      var next :- ReadTlv(rest);
      var t := next.0;
      rest := next.1;
      var x' :- QueryOption(x, t);
      x := x';
    }
    return Ok(x);
  }

  method ReadSetEditFields(content: Bytes) returns (r: Result<SetEdit, WireError>)
    ensures r == DecodeSetEditFields(content)
  {
    hide DecodeTlv, DecodeSetEditOptions;
    var head :- ReadTlv(content);
    var t := head.0;
    if t.tag != 0 {
      return Err(WrongClassOrTag);
    }
    r := ReadSetEditOptions(SetEdit(t.content, None, None, None, None), head.1);
  }

  method ReadEditElements(content: Bytes) returns (r: Result<seq<SetEdit>, WireError>)
    ensures r == DecodeElements(EditElement, [], content)
  {
    hide DecodeTlv, DecodeSetEditFields, DecodeNodeFields, DecodeRangeFields;
    var xs: seq<SetEdit>, rest := [], content;
    while rest != []
      invariant DecodeElements(EditElement, [], content) == DecodeElements(EditElement, xs, rest)
      decreases |rest|
    {
      var next :- ReadTlv(rest);
      var t := next.0;
      rest := next.1;
      if t.cls != UNIVERSAL || t.tag != TAG_SEQUENCE {
        return Err(WrongClassOrTag);
      }
      var x :- ReadSetEditFields(t.content);
      xs := xs + [x];
    }
    return Ok(xs);
  }

  method ReadTargetElements(content: Bytes) returns (r: Result<seq<Bytes>, WireError>)
    ensures r == DecodeElements(TargetElement, [], content)
  {
    hide DecodeTlv, DecodeSetEditFields, DecodeNodeFields, DecodeRangeFields;
    var xs: seq<Bytes>, rest := [], content;
    while rest != []
      invariant DecodeElements(TargetElement, [], content) == DecodeElements(TargetElement, xs, rest)
      decreases |rest|
    {
      var next :- ReadTlv(rest);
      var t := next.0;
      rest := next.1;
      if t.cls != UNIVERSAL || t.tag != TAG_UTF8STRING {
        return Err(WrongClassOrTag);
      }
      xs := xs + [t.content];
    }
    return Ok(xs);
  }

  method ReadNodeElements(content: Bytes) returns (r: Result<seq<WireNode>, WireError>)
    ensures r == DecodeElements(NodeElement, [], content)
  {
    hide DecodeTlv, DecodeSetEditFields, DecodeNodeFields, DecodeRangeFields;
    var xs: seq<WireNode>, rest := [], content;
    while rest != []
      invariant DecodeElements(NodeElement, [], content) == DecodeElements(NodeElement, xs, rest)
      decreases |rest|
    {
      var next :- ReadTlv(rest);
      var t := next.0;
      rest := next.1;
      if t.cls != UNIVERSAL || t.tag != TAG_SEQUENCE {
        return Err(WrongClassOrTag);
      }
      var x :- DecodeNodeFields(t.content);
      xs := xs + [x];
    }
    return Ok(xs);
  }

  method ReadRangeElements(content: Bytes) returns (r: Result<seq<SequenceRange>, WireError>)
    ensures r == DecodeElements(RangeElement, [], content)
  {
    hide DecodeTlv, DecodeSetEditFields, DecodeNodeFields, DecodeRangeFields;
    var xs: seq<SequenceRange>, rest := [], content;
    while rest != []
      invariant DecodeElements(RangeElement, [], content) == DecodeElements(RangeElement, xs, rest)
      decreases |rest|
    {
      var next :- ReadTlv(rest);
      var t := next.0;
      rest := next.1;
      var x :- DecodeRangeFields(t.content);
      xs := xs + [x];
    }
    return Ok(xs);
  }

  /** A sequence number, then one explicit field under tag 1 holding elements. */
  method ReadNumberedElements(content: Bytes) returns (r: Result<(int64, Bytes, Bytes), WireError>)
    ensures r == NumberedElements(content)
  {
    hide DecodeTlv, DecodeInt64;
    var s :- ReadTlv(content);
    var seqNo :- DecodeInt64(s.0.content);
    var t :- ReadTlv(s.1);
    if t.0.tag != 1 {
      return Err(WrongClassOrTag);
    }
    return Ok((seqNo, t.0.content, t.1));
  }

  function NumberedElements(content: Bytes): Result<(int64, Bytes, Bytes), WireError> {
    var (s, r1) :- DecodeTlv(content);
    var seqNo :- DecodeInt64(s.content);
    var (t, r2) :- DecodeTlv(r1);
    if t.tag != 1 then Err(WrongClassOrTag) else Ok((seqNo, t.content, r2))
  }

  method ReadSetFields(content: Bytes) returns (r: Result<Set, WireError>)
    ensures r == DecodeSetFields(content)
  {
    hide DecodeTlv, DecodeInt64, DecodeElements;
    var parts :- ReadNumberedElements(content);
    var (seqNo, inner, rest) := parts;
    var edits :- ReadEditElements(inner);
    if rest != [] {
      return Err(TrailingBytes);
    }
    return Ok(Set(seqNo, edits));
  }

  method ReadDeleteFields(content: Bytes) returns (r: Result<Delete, WireError>)
    ensures r == DecodeDeleteFields(content)
  {
    hide DecodeTlv, DecodeInt64, DecodeElements;
    var parts :- ReadNumberedElements(content);
    var (seqNo, inner, rest) := parts;
    var targets :- ReadTargetElements(inner);
    if rest != [] {
      return Err(TrailingBytes);
    }
    return Ok(Delete(seqNo, targets));
  }

  method ReadCreateFields(content: Bytes) returns (r: Result<Create, WireError>)
    ensures r == DecodeCreateFields(content)
  {
    hide DecodeTlv, DecodeInt64, DecodeCreateOptions;
    var s :- ReadTlv(content);
    var seqNo :- DecodeInt64(s.0.content);
    var k :- ReadTlv(s.1);
    r := ReadCreateOptions(Create(seqNo, k.0.content, None, None), k.1);
  }

  method ReadQueryFields(content: Bytes) returns (r: Result<Query, WireError>)
    ensures r == DecodeQueryFields(content)
  {
    hide DecodeTlv, DecodeInt64, DecodeQueryOptions, DecodeCollection;
    var s :- ReadTlv(content);
    var seqNo :- DecodeInt64(s.0.content);
    var e :- ReadTlv(s.1);
    var m :- ReadTlv(e.1);
    var mode :- DecodeCollection(m.0.content);
    r := ReadQueryOptions(Query(seqNo, e.0.content, mode, None, None, 0), m.1);
  }

  method ReadResponseNodes(resp: Response, t: Tlv, rest: Bytes) returns (r: Result<Response, WireError>)
    ensures r == DecodeResponseNodes(resp, t, rest)
  {
    if t.tag != 4 {
      return Err(WrongClassOrTag);
    }
    var nodes :- ReadNodeElements(t.content);
    if rest != [] {
      return Err(TrailingBytes);
    }
    return Ok(resp.(nodes := nodes));
  }

  method ReadResponseFields(content: Bytes) returns (r: Result<Response, WireError>)
    ensures r == DecodeResponseFields(content)
  {
    hide DecodeTlv, DecodeInt64, DecodeBool, DecodePointer, DecodeResponseNodes;
    var s :- ReadTlv(content);
    var seqNo :- DecodeInt64(s.0.content);
    var i :- ReadTlv(s.1);
    var inReplyTo :- DecodeInt64(i.0.content);
    var b :- ReadTlv(i.1);
    var error :- DecodeBool(b.0.content);
    var t :- ReadTlv(b.1);
    var resp := Response(seqNo, inReplyTo, error, None, []);
    if t.0.tag == 3 {
      var p :- DecodePointer(t.0.content);
      resp := resp.(errorNode := Some(p));
      t :- ReadTlv(t.1);
    }
    r := ReadResponseNodes(resp, t.0, t.1);
  }

  method ReadAckFields(content: Bytes) returns (r: Result<SummaryAck, WireError>)
    ensures r == DecodeAckFields(content)
  {
    hide DecodeTlv, DecodeElements;
    var t :- ReadTlv(content);
    if t.0.tag != 0 {
      return Err(WrongClassOrTag);
    }
    var ranges :- ReadRangeElements(t.0.content);
    if t.1 != [] {
      return Err(TrailingBytes);
    }
    return Ok(SummaryAck(ranges));
  }

  method UnmarshalMessage(data: Bytes) returns (r: Result<Message, WireError>)
    ensures r == DecodeMessage(data)
  {
    hide DecodeTlv, DecodeGetFields, DecodeSetFields, DecodeCreateFields, DecodeQueryFields,
         DecodeResponseFields, DecodeAckFields, DecodeDeleteFields;
    var top :- ReadTlv(data);
    var t := top.0;
    if top.1 != [] {
      return Err(TrailingBytes);
    }
    if t.cls != CONTEXT {
      return Err(WrongClassOrTag);
    }
    match t.tag {
      case 0 => var g := DecodeGetFields(t.content); return if g.Ok? then Ok(MsgGet(g.value)) else Err(g.error);
      case 1 => var s := ReadSetFields(t.content); return if s.Ok? then Ok(MsgSet(s.value)) else Err(s.error);
      case 2 => var c := ReadCreateFields(t.content); return if c.Ok? then Ok(MsgCreate(c.value)) else Err(c.error);
      case 3 => var q := ReadQueryFields(t.content); return if q.Ok? then Ok(MsgQuery(q.value)) else Err(q.error);
      case 4 => var p := ReadResponseFields(t.content); return if p.Ok? then Ok(MsgResponse(p.value)) else Err(p.error);
      case 5 => var a := ReadAckFields(t.content); return if a.Ok? then Ok(MsgSummaryAck(a.value)) else Err(a.error);
      case 6 => var d := ReadDeleteFields(t.content); return if d.Ok? then Ok(MsgDelete(d.value)) else Err(d.error);
      case _ => return Err(WrongClassOrTag);
    }
  }
}
