/**
 * The message codec of goimpl/internal/wire/codec.go, twice: as functions that
 * say what every type's octets are and what a decoder makes of any octets, and
 * as the buffer-writing and octet-consuming methods of the source, each proved
 * to agree with its function.
 */
module Codec {
  import opened Basics
  import opened WireTypes
  import opened Ber

  // --- what is written --------------------------------------------------------

  function IntField(tag: nat, v: int): Bytes
    requires tag < 31
  {
    EncodeTlv(CONTEXT, false, tag, TwosComplement(v))
  }

  function BytesField(tag: nat, v: Bytes): Bytes
    requires tag < 31
  {
    EncodeTlv(CONTEXT, false, tag, v)
  }

  function Explicit(tag: nat, inner: Bytes): Bytes
    requires tag < 31
  {
    EncodeTlv(CONTEXT, true, tag, inner)
  }

  function PointerOctets(p: NodePointer): Bytes {
    match p
    case AbsolutePointer(expr) => BytesField(0, expr)
    case OffsetPointer(delta) => IntField(1, delta)
    case NonePointer => BytesField(2, [])
  }

  function ValueOctets(v: NodeValue): Bytes {
    match v
    case Integer32Value(x) => IntField(0, x)
    case Unsigned32Value(x) => IntField(1, x)
    case Counter32Value(x) => IntField(2, x)
    case Counter64Value(x) => IntField(3, x)
    case TimeTicksValue(x) => IntField(4, x)
    case OctetStringValue(b) => BytesField(5, b)
    case RealValue(b) => BytesField(6, b)
    case NoValue => BytesField(7, [])
  }

  function AggregationOctets(m: AggregationMethod): Bytes {
    match m
    case AggMin => BytesField(0, [])
    case AggMax => BytesField(1, [])
    case AggMean => BytesField(2, [])
    case AggStdDev => BytesField(3, [])
    case AggPercentile(p) => IntField(4, p)
  }

  function CollectionOctets(m: CollectionMode): Bytes {
    match m
    case CollectOnce => BytesField(0, [])
    case CollectInterval(i) => IntField(1, i)
    case CollectOnChange => BytesField(2, [])
  }

  /** The elements of a SEQUENCE OF, each under the same tag. */
  function ElementOctets<T>(cls: nat, constructed: bool, tag: nat, body: T -> Bytes, xs: seq<T>): Bytes
    requires cls < 4 && tag < 31
  {
    if xs == [] then []
    else
      var n := |xs| - 1;
      ElementOctets(cls, constructed, tag, body, xs[..n]) + EncodeTlv(cls, constructed, tag, body(xs[n]))
  }

  function NodeFields(n: WireNode): Bytes {
    BytesField(0, n.key) + Explicit(1, ValueOctets(n.value))
      + Explicit(2, PointerOctets(n.firstChild)) + Explicit(3, PointerOctets(n.nextSibling))
  }

  function OptPointer(tag: nat, p: Option<NodePointer>): Bytes
    requires tag < 31
  {
    if p.Some? then Explicit(tag, PointerOctets(p.value)) else []
  }

  function OptValue(tag: nat, v: Option<NodeValue>): Bytes
    requires tag < 31
  {
    if v.Some? then Explicit(tag, ValueOctets(v.value)) else []
  }

  function OptBytes(tag: nat, b: Option<Bytes>): Bytes
    requires tag < 31
  {
    if b.Some? then BytesField(tag, b.value) else []
  }

  function SetEditFields(e: SetEdit): Bytes {
    BytesField(0, e.target) + OptValue(1, e.newValue) + OptPointer(2, e.newFirstChild)
      + OptPointer(3, e.newNextSibling) + OptBytes(4, e.newParent)
  }

  function RangeFields(r: SequenceRange): Bytes {
    IntField(0, r.first) + IntField(1, r.last)
  }

  function EditElements(edits: seq<SetEdit>): Bytes {
    ElementOctets(UNIVERSAL, true, TAG_SEQUENCE, SetEditFields, edits)
  }

  function TargetElements(targets: seq<Bytes>): Bytes {
    ElementOctets(UNIVERSAL, false, TAG_UTF8STRING, (b: Bytes) => b, targets)
  }

  function NodeElements(nodes: seq<WireNode>): Bytes {
    ElementOctets(UNIVERSAL, true, TAG_SEQUENCE, NodeFields, nodes)
  }

  function RangeElements(ranges: seq<SequenceRange>): Bytes {
    ElementOctets(UNIVERSAL, true, TAG_SEQUENCE, RangeFields, ranges)
  }

  function GetFields(g: Get): Bytes {
    IntField(0, g.sequenceNumber) + Explicit(1, PointerOctets(g.target))
  }

  function SetFields(s: Set): Bytes {
    IntField(0, s.sequenceNumber) + Explicit(1, EditElements(s.edits))
  }

  function CreateFields(c: Create): Bytes {
    IntField(0, c.sequenceNumber) + BytesField(1, c.key) + OptValue(2, c.value) + OptBytes(3, c.parent)
  }

  function QueryFields(q: Query): Bytes {
    IntField(0, q.sequenceNumber) + BytesField(1, q.nodeExpression)
      + Explicit(2, CollectionOctets(q.collectionMode))
      + (if q.aggregationInterval.Some? then IntField(3, q.aggregationInterval.value) else [])
      + (if q.aggregationMethod.Some? then Explicit(4, AggregationOctets(q.aggregationMethod.value)) else [])
      + IntField(5, q.transferInterval)
  }

  function ResponseFields(r: Response): Bytes {
    IntField(0, r.sequenceNumber) + IntField(1, r.inReplyTo)
      + BytesField(2, if r.error then [0xff] else [0])
      + OptPointer(3, r.errorNode) + Explicit(4, NodeElements(r.nodes))
  }

  function AckFields(a: SummaryAck): Bytes {
    Explicit(0, RangeElements(a.received))
  }

  function DeleteFields(d: Delete): Bytes {
    IntField(0, d.sequenceNumber) + Explicit(1, TargetElements(d.targets))
  }

  /** MarshalMessage's octets. */
  function MessageOctets(m: Message): Bytes {
    match m
    case MsgGet(g) => Explicit(0, GetFields(g))
    case MsgSet(s) => Explicit(1, SetFields(s))
    case MsgCreate(c) => Explicit(2, CreateFields(c))
    case MsgQuery(q) => Explicit(3, QueryFields(q))
    case MsgResponse(r) => Explicit(4, ResponseFields(r))
    case MsgSummaryAck(a) => Explicit(5, AckFields(a))
    case MsgDelete(d) => Explicit(6, DeleteFields(d))
  }

  /** The size of a successful Response as a function of its nodes, by which the server cuts a result to size. */
  function ResponseSize(tx: int64, inReplyTo: int64): seq<WireNode> -> int {
    (nodes: seq<WireNode>) => |MessageOctets(MsgResponse(Response(tx, inReplyTo, false, None, nodes)))|
  }

  // --- what is read back --------------------------------------------------------

  /** The single TLV that must make up all of data, in the context class. */
  function Choice(data: Bytes): Result<Tlv, WireError> {
    var (t, rest) :- DecodeTlv(data);
    if rest != [] then Err(TrailingBytes)
    else if t.cls != CONTEXT then Err(WrongClassOrTag)
    else Ok(t)
  }

  function DecodePointer(data: Bytes): Result<NodePointer, WireError> {
    var t :- Choice(data);
    match t.tag
    case 0 => Ok(AbsolutePointer(t.content))
    case 1 => var v :- DecodeInt64(t.content); Ok(OffsetPointer(v))
    case 2 => Ok(NonePointer)
    case _ => Err(WrongClassOrTag)
  }

  function DecodeUint32(content: Bytes): Result<uint32, WireError> {
    var v :- DecodeUint64(content);
    if v > 4294967295 then Err(IntegerRange) else Ok(v)
  }

  function DecodeValue(data: Bytes): Result<NodeValue, WireError> {
    var t :- Choice(data);
    match t.tag
    case 0 =>
      var v :- DecodeInt64(t.content);
      if v < -2147483648 || v > 2147483647 then Err(IntegerRange) else Ok(Integer32Value(v))
    case 1 => var v :- DecodeUint32(t.content); Ok(Unsigned32Value(v))
    case 2 => var v :- DecodeUint32(t.content); Ok(Counter32Value(v))
    case 3 => var v :- DecodeUint64(t.content); Ok(Counter64Value(v))
    case 4 => var v :- DecodeUint32(t.content); Ok(TimeTicksValue(v))
    case 5 => Ok(OctetStringValue(t.content))
    case 6 => if |t.content| != 8 then Err(BadReal) else Ok(RealValue(t.content))
    case 7 => Ok(NoValue)
    case _ => Err(WrongClassOrTag)
  }

  function DecodeAggregation(data: Bytes): Result<AggregationMethod, WireError> {
    var t :- Choice(data);
    match t.tag
    case 0 => Ok(AggMin)
    case 1 => Ok(AggMax)
    case 2 => Ok(AggMean)
    case 3 => Ok(AggStdDev)
    case 4 =>
      var v :- DecodeInt64(t.content);
      if v < 0 || v > 100 then Err(IntegerRange) else Ok(AggPercentile(v))
    case _ => Err(WrongClassOrTag)
  }

  function DecodeCollection(data: Bytes): Result<CollectionMode, WireError> {
    var t :- Choice(data);
    match t.tag
    case 0 => Ok(CollectOnce)
    case 1 => var v :- DecodeInt64(t.content); Ok(CollectInterval(v))
    case 2 => Ok(CollectOnChange)
    case _ => Err(WrongClassOrTag)
  }

  function DecodeNodeFields(content: Bytes): Result<WireNode, WireError> {
    var (k, r1) :- DecodeTlv(content);
    var (v, r2) :- DecodeTlv(r1);
    var value :- DecodeValue(v.content);
    var (f, r3) :- DecodeTlv(r2);
    var firstChild :- DecodePointer(f.content);
    var (n, r4) :- DecodeTlv(r3);
    var nextSibling :- DecodePointer(n.content);
    if r4 != [] then Err(TrailingBytes)
    else Ok(WireNode(k.content, value, firstChild, nextSibling))
  }

  function DecodeRangeFields(content: Bytes): Result<SequenceRange, WireError> {
    var (f, r1) :- DecodeTlv(content);
    var first :- DecodeInt64(f.content);
    var (l, r2) :- DecodeTlv(r1);
    var last :- DecodeInt64(l.content);
    if r2 != [] then Err(TrailingBytes) else Ok(SequenceRange(first, last))
  }

  /** What a loop over elements makes of the octets still to read, acc being what it has. */
  function DecodeElements<T>(element: Tlv -> Result<T, WireError>, acc: seq<T>, content: Bytes): Result<seq<T>, WireError>
    decreases |content|
  {
    if content == [] then Ok(acc)
    else
      var (t, rest) :- DecodeTlv(content);
      var x :- element(t);
      DecodeElements(element, acc + [x], rest)
  }

  function EditElement(t: Tlv): Result<SetEdit, WireError> {
    if t.cls != UNIVERSAL || t.tag != TAG_SEQUENCE then Err(WrongClassOrTag) else DecodeSetEditFields(t.content)
  }

  function TargetElement(t: Tlv): Result<Bytes, WireError> {
    if t.cls != UNIVERSAL || t.tag != TAG_UTF8STRING then Err(WrongClassOrTag) else Ok(t.content)
  }

  function NodeElement(t: Tlv): Result<WireNode, WireError> {
    if t.cls != UNIVERSAL || t.tag != TAG_SEQUENCE then Err(WrongClassOrTag) else DecodeNodeFields(t.content)
  }

  /** decodeSummaryAckFields looks at no element's tag. */
  function RangeElement(t: Tlv): Result<SequenceRange, WireError> {
    DecodeRangeFields(t.content)
  }

  function DecodeSetEditFields(content: Bytes): Result<SetEdit, WireError> {
    var (t, rest) :- DecodeTlv(content);
    if t.tag != 0 then Err(WrongClassOrTag)
    else DecodeSetEditOptions(SetEdit(t.content, None, None, None, None), rest)
  }

  function SetEditOption(e: SetEdit, t: Tlv): Result<SetEdit, WireError> {
    match t.tag
    case 1 => var v :- DecodeValue(t.content); Ok(e.(newValue := Some(v)))
    case 2 => var p :- DecodePointer(t.content); Ok(e.(newFirstChild := Some(p)))
    case 3 => var p :- DecodePointer(t.content); Ok(e.(newNextSibling := Some(p)))
    case 4 => Ok(e.(newParent := Some(t.content)))
    case _ => Err(WrongClassOrTag)
  }

  function DecodeSetEditOptions(e: SetEdit, rest: Bytes): Result<SetEdit, WireError>
    decreases |rest|
  {
    if rest == [] then Ok(e)
    else
      var (t, r) :- DecodeTlv(rest);
      var e' :- SetEditOption(e, t);
      DecodeSetEditOptions(e', r)
  }

  function CreateOption(c: Create, t: Tlv): Result<Create, WireError> {
    match t.tag
    case 2 => var v :- DecodeValue(t.content); Ok(c.(value := Some(v)))
    case 3 => Ok(c.(parent := Some(t.content)))
    case _ => Err(WrongClassOrTag)
  }

  function DecodeCreateOptions(c: Create, rest: Bytes): Result<Create, WireError>
    decreases |rest|
  {
    if rest == [] then Ok(c)
    else
      var (t, r) :- DecodeTlv(rest);
      var c' :- CreateOption(c, t);
      DecodeCreateOptions(c', r)
  }

  function QueryOption(q: Query, t: Tlv): Result<Query, WireError> {
    match t.tag
    case 3 => var v :- DecodeInt64(t.content); Ok(q.(aggregationInterval := Some(v)))
    case 4 => var m :- DecodeAggregation(t.content); Ok(q.(aggregationMethod := Some(m)))
    case 5 => var v :- DecodeInt64(t.content); Ok(q.(transferInterval := v))
    case _ => Err(WrongClassOrTag)
  }

  function DecodeQueryOptions(q: Query, rest: Bytes): Result<Query, WireError>
    decreases |rest|
  {
    if rest == [] then Ok(q)
    else
      var (t, r) :- DecodeTlv(rest);
      var q' :- QueryOption(q, t);
      DecodeQueryOptions(q', r)
  }

  function DecodeGetFields(content: Bytes): Result<Get, WireError> {
    var (s, r1) :- DecodeTlv(content);
    var seqNo :- DecodeInt64(s.content);
    var (t, r2) :- DecodeTlv(r1);
    var target :- DecodePointer(t.content);
    if r2 != [] then Err(TrailingBytes) else Ok(Get(seqNo, target))
  }

  function DecodeSetFields(content: Bytes): Result<Set, WireError> {
    var (s, r1) :- DecodeTlv(content);
    var seqNo :- DecodeInt64(s.content);
    var (t, r2) :- DecodeTlv(r1);
    if t.tag != 1 then Err(WrongClassOrTag)
    else
      var edits :- DecodeElements(EditElement, [], t.content);
      if r2 != [] then Err(TrailingBytes) else Ok(Set(seqNo, edits))
  }

  function DecodeDeleteFields(content: Bytes): Result<Delete, WireError> {
    var (s, r1) :- DecodeTlv(content);
    var seqNo :- DecodeInt64(s.content);
    var (t, r2) :- DecodeTlv(r1);
    if t.tag != 1 then Err(WrongClassOrTag)
    else
      var targets :- DecodeElements(TargetElement, [], t.content);
      if r2 != [] then Err(TrailingBytes) else Ok(Delete(seqNo, targets))
  }

  function DecodeCreateFields(content: Bytes): Result<Create, WireError> {
    var (s, r1) :- DecodeTlv(content);
    var seqNo :- DecodeInt64(s.content);
    var (k, r2) :- DecodeTlv(r1);
    DecodeCreateOptions(Create(seqNo, k.content, None, None), r2)
  }

  function DecodeQueryFields(content: Bytes): Result<Query, WireError> {
    var (s, r1) :- DecodeTlv(content);
    var seqNo :- DecodeInt64(s.content);
    var (e, r2) :- DecodeTlv(r1);
    var (m, r3) :- DecodeTlv(r2);
    var mode :- DecodeCollection(m.content);
    DecodeQueryOptions(Query(seqNo, e.content, mode, None, None, 0), r3)
  }

  function DecodeResponseFields(content: Bytes): Result<Response, WireError> {
    var (s, r1) :- DecodeTlv(content);
    var seqNo :- DecodeInt64(s.content);
    var (i, r2) :- DecodeTlv(r1);
    var inReplyTo :- DecodeInt64(i.content);
    var (b, r3) :- DecodeTlv(r2);
    var error :- DecodeBool(b.content);
    var (t, r4) :- DecodeTlv(r3);
    if t.tag == 3 then
      var p :- DecodePointer(t.content);
      var (n, r5) :- DecodeTlv(r4);
      DecodeResponseNodes(Response(seqNo, inReplyTo, error, Some(p), []), n, r5)
    else
      DecodeResponseNodes(Response(seqNo, inReplyTo, error, None, []), t, r4)
  }

  function DecodeResponseNodes(resp: Response, t: Tlv, rest: Bytes): Result<Response, WireError> {
    if t.tag != 4 then Err(WrongClassOrTag)
    else
      var nodes :- DecodeElements(NodeElement, [], t.content);
      if rest != [] then Err(TrailingBytes) else Ok(resp.(nodes := nodes))
  }

  function DecodeAckFields(content: Bytes): Result<SummaryAck, WireError> {
    var (t, rest) :- DecodeTlv(content);
    if t.tag != 0 then Err(WrongClassOrTag)
    else
      var ranges :- DecodeElements(RangeElement, [], t.content);
      if rest != [] then Err(TrailingBytes) else Ok(SummaryAck(ranges))
  }

  function DecodeMessage(data: Bytes): Result<Message, WireError> {
    var t :- Choice(data);
    match t.tag
    case 0 => var g :- DecodeGetFields(t.content); Ok(MsgGet(g))
    case 1 => var s :- DecodeSetFields(t.content); Ok(MsgSet(s))
    case 2 => var c :- DecodeCreateFields(t.content); Ok(MsgCreate(c))
    case 3 => var q :- DecodeQueryFields(t.content); Ok(MsgQuery(q))
    case 4 => var r :- DecodeResponseFields(t.content); Ok(MsgResponse(r))
    case 5 => var a :- DecodeAckFields(t.content); Ok(MsgSummaryAck(a))
    case 6 => var d :- DecodeDeleteFields(t.content); Ok(MsgDelete(d))
    case _ => Err(WrongClassOrTag)
  }
}
