/**
 * Decoding undoes encoding: ITU-T X.690 section 8.1.3 for the framing, section
 * 8.3 for integers, carried through every message type.
 */
module CodecRoundTrip {
  import opened Basics
  import opened WireTypes
  import opened Ber
  import opened Codec

  /** One field read off the front of what is left. */
  lemma IntFieldRead(tag: nat, v: int, rest: Bytes)
    requires tag < 31 && |IntField(tag, v)| <= MAX_INT64
    ensures DecodeTlv(IntField(tag, v) + rest) == Ok((Tlv(CONTEXT, false, tag, TwosComplement(v)), rest))
    ensures DecodeInt(TwosComplement(v)) == Ok(v)
  {
    TlvRoundTrip(CONTEXT, false, tag, TwosComplement(v), rest);
    IntegerRoundTrip(v);
  }

  lemma BytesFieldRead(tag: nat, v: Bytes, rest: Bytes)
    requires tag < 31 && |BytesField(tag, v)| <= MAX_INT64
    ensures DecodeTlv(BytesField(tag, v) + rest) == Ok((Tlv(CONTEXT, false, tag, v), rest))
  {
    TlvRoundTrip(CONTEXT, false, tag, v, rest);
  }

  lemma ExplicitRead(tag: nat, inner: Bytes, rest: Bytes)
    requires tag < 31 && |Explicit(tag, inner)| <= MAX_INT64
    ensures DecodeTlv(Explicit(tag, inner) + rest) == Ok((Tlv(CONTEXT, true, tag, inner), rest))
  {
    TlvRoundTrip(CONTEXT, true, tag, inner, rest);
  }

  lemma ChoiceOfInt(tag: nat, v: int)
    requires tag < 31 && |IntField(tag, v)| <= MAX_INT64
    ensures Choice(IntField(tag, v)) == Ok(Tlv(CONTEXT, false, tag, TwosComplement(v)))
    ensures DecodeInt(TwosComplement(v)) == Ok(v)
  {
    assert IntField(tag, v) + [] == IntField(tag, v);
    IntFieldRead(tag, v, []);
  }

  lemma ChoiceOfBytes(tag: nat, v: Bytes)
    requires tag < 31 && |BytesField(tag, v)| <= MAX_INT64
    ensures Choice(BytesField(tag, v)) == Ok(Tlv(CONTEXT, false, tag, v))
  {
    assert BytesField(tag, v) + [] == BytesField(tag, v);
    BytesFieldRead(tag, v, []);
  }

  lemma PointerRoundTrip(p: NodePointer)
    requires |PointerOctets(p)| <= MAX_INT64
    ensures DecodePointer(PointerOctets(p)) == Ok(p)
  {
    hide EncodeTlv, DecodeTlv, TwosComplement;
    match p
    case AbsolutePointer(expr) => ChoiceOfBytes(0, expr);
    case OffsetPointer(delta) => ChoiceOfInt(1, delta);
    case NonePointer => ChoiceOfBytes(2, []);
  }

  lemma ValueRoundTrip(v: NodeValue)
    requires |ValueOctets(v)| <= MAX_INT64
    ensures DecodeValue(ValueOctets(v)) == Ok(v)
  {
    hide EncodeTlv, DecodeTlv, TwosComplement;
    match v
    case Integer32Value(x) => ChoiceOfInt(0, x);
    case Unsigned32Value(x) => ChoiceOfInt(1, x);
    case Counter32Value(x) => ChoiceOfInt(2, x);
    case Counter64Value(x) => ChoiceOfInt(3, x);
    case TimeTicksValue(x) => ChoiceOfInt(4, x);
    case OctetStringValue(b) => ChoiceOfBytes(5, b);
    case RealValue(b) => ChoiceOfBytes(6, b);
    case NoValue => ChoiceOfBytes(7, []);
  }

  predicate PercentileInRange(m: AggregationMethod) {
    m.AggPercentile? ==> 0 <= m.percentile <= 100
  }

  /** The decoder checks the percentile's range; the encoder does not. */
  lemma AggregationRoundTrip(m: AggregationMethod)
    requires |AggregationOctets(m)| <= MAX_INT64
    ensures DecodeAggregation(AggregationOctets(m)) == if PercentileInRange(m) then Ok(m) else Err(IntegerRange)
  {
    hide EncodeTlv, DecodeTlv, TwosComplement;
    match m
    case AggMin => ChoiceOfBytes(0, []);
    case AggMax => ChoiceOfBytes(1, []);
    case AggMean => ChoiceOfBytes(2, []);
    case AggStdDev => ChoiceOfBytes(3, []);
    case AggPercentile(p) => ChoiceOfInt(4, p);
  }

  lemma CollectionRoundTrip(m: CollectionMode)
    requires |CollectionOctets(m)| <= MAX_INT64
    ensures DecodeCollection(CollectionOctets(m)) == Ok(m)
  {
    hide EncodeTlv, DecodeTlv, TwosComplement;
    match m
    case CollectOnce => ChoiceOfBytes(0, []);
    case CollectInterval(i) => ChoiceOfInt(1, i);
    case CollectOnChange => ChoiceOfBytes(2, []);
  }

  /** A loop over elements takes in exactly the elements written, then goes on with what follows. */
  lemma {:induction false} ElementsRead<T>(cls: nat, constructed: bool, tag: nat, body: T -> Bytes,
                                           element: Tlv -> Result<T, WireError>, xs: seq<T>, acc: seq<T>, rest: Bytes)
    requires cls < 4 && tag < 31
    requires |ElementOctets(cls, constructed, tag, body, xs)| <= MAX_INT64
    requires forall x :: x in xs && |body(x)| <= MAX_INT64 ==> element(Tlv(cls, constructed, tag, body(x))) == Ok(x)
    ensures DecodeElements(element, acc, ElementOctets(cls, constructed, tag, body, xs) + rest)
         == DecodeElements(element, acc + xs, rest)
  {
    hide EncodeTlv, DecodeTlv, TwosComplement;
    if xs == [] {
      assert [] + rest == rest && acc + xs == acc;
    } else {
      var n := |xs| - 1;
      var init, last := xs[..n], xs[n];
      var octets := EncodeTlv(cls, constructed, tag, body(last));
      assert ElementOctets(cls, constructed, tag, body, xs) + rest
          == ElementOctets(cls, constructed, tag, body, init) + (octets + rest);
      ElementsRead(cls, constructed, tag, body, element, init, acc, octets + rest);
      TlvRoundTrip(cls, constructed, tag, body(last), rest);
      assert acc + init + [last] == acc + xs;
    }
  }

  lemma ElementsRoundTrip<T>(cls: nat, constructed: bool, tag: nat, body: T -> Bytes,
                             element: Tlv -> Result<T, WireError>, xs: seq<T>)
    requires cls < 4 && tag < 31
    requires |ElementOctets(cls, constructed, tag, body, xs)| <= MAX_INT64
    requires forall x :: x in xs && |body(x)| <= MAX_INT64 ==> element(Tlv(cls, constructed, tag, body(x))) == Ok(x)
    ensures DecodeElements(element, [], ElementOctets(cls, constructed, tag, body, xs)) == Ok(xs)
  {
    ElementsRead(cls, constructed, tag, body, element, xs, [], []);
    var octets := ElementOctets(cls, constructed, tag, body, xs);
    assert octets + [] == octets && [] + xs == xs;
  }

  lemma NodeFieldsRoundTrip(n: WireNode)
    requires |NodeFields(n)| <= MAX_INT64
    ensures DecodeNodeFields(NodeFields(n)) == Ok(n)
  {
    hide EncodeTlv, DecodeTlv, TwosComplement;
    var v, f, s := ValueOctets(n.value), PointerOctets(n.firstChild), PointerOctets(n.nextSibling);
    var r3 := Explicit(3, s);
    var r2 := Explicit(2, f) + r3;
    var r1 := Explicit(1, v) + r2;
    assert NodeFields(n) == BytesField(0, n.key) + r1;
    BytesFieldRead(0, n.key, r1);
    ExplicitRead(1, v, r2);
    ValueRoundTrip(n.value);
    ExplicitRead(2, f, r3);
    PointerRoundTrip(n.firstChild);
    assert r3 == r3 + [];
    ExplicitRead(3, s, []);
    PointerRoundTrip(n.nextSibling);
  }

  lemma RangeFieldsRoundTrip(r: SequenceRange)
    requires |RangeFields(r)| <= MAX_INT64
    ensures DecodeRangeFields(RangeFields(r)) == Ok(r)
  {
    hide EncodeTlv, DecodeTlv, TwosComplement;
    IntFieldRead(0, r.first, IntField(1, r.last));
    assert IntField(1, r.last) == IntField(1, r.last) + [];
    IntFieldRead(1, r.last, []);
  }

  // --- optional fields ------------------------------------------------------------

  lemma SetEditOptionsRead(e: SetEdit, full: SetEdit, octets: Bytes)
    requires octets == OptValue(1, full.newValue) + (OptPointer(2, full.newFirstChild)
                       + (OptPointer(3, full.newNextSibling) + OptBytes(4, full.newParent)))
    requires |octets| <= MAX_INT64
    requires e == SetEdit(full.target, None, None, None, None)
    ensures DecodeSetEditOptions(e, octets) == Ok(full)
  {
    hide EncodeTlv, DecodeTlv, TwosComplement;
    var o4 := OptBytes(4, full.newParent);
    var o3 := OptPointer(3, full.newNextSibling) + o4;
    var o2 := OptPointer(2, full.newFirstChild) + o3;
    var e1 := e.(newValue := full.newValue);
    var e2 := e1.(newFirstChild := full.newFirstChild);
    var e3 := e2.(newNextSibling := full.newNextSibling);
    SetEditValueRead(e, full.newValue, o2);
    SetEditPointerRead(e1, 2, full.newFirstChild, o3);
    SetEditPointerRead(e2, 3, full.newNextSibling, o4);
    if full.newParent.Some? {
      assert o4 == o4 + [];
      BytesFieldRead(4, full.newParent.value, []);
    }
    assert DecodeSetEditOptions(e3, o4) == Ok(full);
  }

  lemma SetEditValueRead(e: SetEdit, v: Option<NodeValue>, rest: Bytes)
    requires |OptValue(1, v)| <= MAX_INT64 && e.newValue.None?
    ensures DecodeSetEditOptions(e, OptValue(1, v) + rest) == DecodeSetEditOptions(e.(newValue := v), rest)
  {
    hide EncodeTlv, DecodeTlv, TwosComplement;
    if v.Some? {
      ExplicitRead(1, ValueOctets(v.value), rest);
      ValueRoundTrip(v.value);
    } else {
      assert [] + rest == rest;
    }
  }

  lemma SetEditPointerRead(e: SetEdit, tag: nat, p: Option<NodePointer>, rest: Bytes)
    requires tag == 2 || tag == 3
    requires |OptPointer(tag, p)| <= MAX_INT64
    requires if tag == 2 then e.newFirstChild.None? else e.newNextSibling.None?
    ensures DecodeSetEditOptions(e, OptPointer(tag, p) + rest)
         == DecodeSetEditOptions(if tag == 2 then e.(newFirstChild := p) else e.(newNextSibling := p), rest)
  {
    hide EncodeTlv, DecodeTlv, TwosComplement;
    if p.Some? {
      ExplicitRead(tag, PointerOctets(p.value), rest);
      PointerRoundTrip(p.value);
    } else {
      assert [] + rest == rest;
    }
  }

  lemma SetEditFieldsRoundTrip(e: SetEdit)
    requires |SetEditFields(e)| <= MAX_INT64
    ensures DecodeSetEditFields(SetEditFields(e)) == Ok(e)
  {
    hide EncodeTlv, DecodeTlv, TwosComplement;
    var octets := OptValue(1, e.newValue) + (OptPointer(2, e.newFirstChild)
                  + (OptPointer(3, e.newNextSibling) + OptBytes(4, e.newParent)));
    assert SetEditFields(e) == BytesField(0, e.target) + octets;
    BytesFieldRead(0, e.target, octets);
    SetEditOptionsRead(SetEdit(e.target, None, None, None, None), e, octets);
  }

  // --- messages -------------------------------------------------------------------

  lemma GetRoundTrip(g: Get)
    requires |GetFields(g)| <= MAX_INT64
    ensures DecodeGetFields(GetFields(g)) == Ok(g)
  {
    hide EncodeTlv, DecodeTlv, TwosComplement;
    var t := Explicit(1, PointerOctets(g.target));
    IntFieldRead(0, g.sequenceNumber, t);
    assert t == t + [];
    ExplicitRead(1, PointerOctets(g.target), []);
    PointerRoundTrip(g.target);
  }

  lemma SetRoundTrip(s: Set)
    requires |SetFields(s)| <= MAX_INT64
    ensures DecodeSetFields(SetFields(s)) == Ok(s)
  {
    hide EncodeTlv, DecodeTlv, TwosComplement, DecodeSetEditFields, SetEditFields, DecodeElements, ElementOctets;
    var inner := EditElements(s.edits);
    IntFieldRead(0, s.sequenceNumber, Explicit(1, inner));
    assert Explicit(1, inner) == Explicit(1, inner) + [];
    ExplicitRead(1, inner, []);
    forall e | e in s.edits && |SetEditFields(e)| <= MAX_INT64
      ensures EditElement(Tlv(UNIVERSAL, true, TAG_SEQUENCE, SetEditFields(e))) == Ok(e)
    {
      SetEditFieldsRoundTrip(e);
    }
    ElementsRoundTrip(UNIVERSAL, true, TAG_SEQUENCE, SetEditFields, EditElement, s.edits);
  }

  lemma DeleteRoundTrip(d: Delete)
    requires |DeleteFields(d)| <= MAX_INT64
    ensures DecodeDeleteFields(DeleteFields(d)) == Ok(d)
  {
    hide DecodeElements, ElementOctets, EncodeTlv, DecodeTlv, TwosComplement;
    var inner := TargetElements(d.targets);
    IntFieldRead(0, d.sequenceNumber, Explicit(1, inner));
    assert Explicit(1, inner) == Explicit(1, inner) + [];
    ExplicitRead(1, inner, []);
    ElementsRoundTrip(UNIVERSAL, false, TAG_UTF8STRING, (b: Bytes) => b, TargetElement, d.targets);
  }

  lemma CreateRoundTrip(c: Create)
    requires |CreateFields(c)| <= MAX_INT64
    ensures DecodeCreateFields(CreateFields(c)) == Ok(c)
  {
    hide EncodeTlv, DecodeTlv, TwosComplement;
    var o3 := OptBytes(3, c.parent);
    var o2 := OptValue(2, c.value) + o3;
    var r1 := BytesField(1, c.key) + o2;
    assert CreateFields(c) == IntField(0, c.sequenceNumber) + r1;
    IntFieldRead(0, c.sequenceNumber, r1);
    BytesFieldRead(1, c.key, o2);
    var c0 := Create(c.sequenceNumber, c.key, None, None);
    var c1 := c0.(value := c.value);
    assert DecodeCreateOptions(c0, o2) == DecodeCreateOptions(c1, o3) by {
      if c.value.Some? {
        ExplicitRead(2, ValueOctets(c.value.value), o3);
        ValueRoundTrip(c.value.value);
      } else {
        assert o2 == o3;
      }
    }
    if c.parent.Some? {
      assert o3 == o3 + [];
      BytesFieldRead(3, c.parent.value, []);
    }
    assert DecodeCreateOptions(c1, o3) == Ok(c);
  }

  predicate QueryEncodable(q: Query) {
    q.aggregationMethod.Some? ==> PercentileInRange(q.aggregationMethod.value)
  }

  lemma QueryRoundTrip(q: Query)
    requires |QueryFields(q)| <= MAX_INT64
    ensures DecodeQueryFields(QueryFields(q)) == if QueryEncodable(q) then Ok(q) else Err(IntegerRange)
  {
    hide DecodeCollection, CollectionOctets, AggregationOctets, EncodeTlv, DecodeTlv, TwosComplement;
    var o5 := IntField(5, q.transferInterval);
    var m4 := if q.aggregationMethod.Some? then Explicit(4, AggregationOctets(q.aggregationMethod.value)) else [];
    var o4 := m4 + o5;
    var i3 := if q.aggregationInterval.Some? then IntField(3, q.aggregationInterval.value) else [];
    var o3 := i3 + o4;
    var r2 := Explicit(2, CollectionOctets(q.collectionMode)) + o3;
    var r1 := BytesField(1, q.nodeExpression) + r2;
    assert QueryFields(q) == IntField(0, q.sequenceNumber) + r1;
    IntFieldRead(0, q.sequenceNumber, r1);
    BytesFieldRead(1, q.nodeExpression, r2);
    ExplicitRead(2, CollectionOctets(q.collectionMode), o3);
    CollectionRoundTrip(q.collectionMode);
    var q0 := Query(q.sequenceNumber, q.nodeExpression, q.collectionMode, None, None, 0);
    var q1 := q0.(aggregationInterval := q.aggregationInterval);
    assert DecodeQueryOptions(q0, o3) == DecodeQueryOptions(q1, o4) by {
      if q.aggregationInterval.Some? {
        IntFieldRead(3, q.aggregationInterval.value, o4);
      } else {
        assert o3 == o4;
      }
    }
    QueryTailRead(q, q1, o4, o5);
  }

  lemma QueryTailRead(q: Query, q1: Query, o4: Bytes, o5: Bytes)
    requires q1 == q.(aggregationMethod := None, transferInterval := 0)
    requires o5 == IntField(5, q.transferInterval)
    requires o4 == (if q.aggregationMethod.Some? then Explicit(4, AggregationOctets(q.aggregationMethod.value)) else []) + o5
    requires |o4| <= MAX_INT64
    ensures DecodeQueryOptions(q1, o4) == if QueryEncodable(q) then Ok(q) else Err(IntegerRange)
  {
    hide EncodeTlv, DecodeTlv, TwosComplement;
    var q2 := q1.(aggregationMethod := q.aggregationMethod);
    assert o5 == o5 + [];
    IntFieldRead(5, q.transferInterval, []);
    assert DecodeQueryOptions(q2, o5) == Ok(q);
    if q.aggregationMethod.Some? {
      ExplicitRead(4, AggregationOctets(q.aggregationMethod.value), o5);
      AggregationRoundTrip(q.aggregationMethod.value);
    } else {
      assert o4 == o5;
    }
  }

  lemma ResponseNodesRoundTrip(r: Response, part: Response)
    requires |NodeElements(r.nodes)| <= MAX_INT64
    requires part == r.(nodes := [])
    ensures DecodeResponseNodes(part, Tlv(CONTEXT, true, 4, NodeElements(r.nodes)), []) == Ok(r)
  {
    hide DecodeElements, ElementOctets, EncodeTlv, DecodeTlv, TwosComplement;
    forall n | n in r.nodes && |NodeFields(n)| <= MAX_INT64
      ensures NodeElement(Tlv(UNIVERSAL, true, TAG_SEQUENCE, NodeFields(n))) == Ok(n)
    {
      NodeFieldsRoundTrip(n);
    }
    ElementsRoundTrip(UNIVERSAL, true, TAG_SEQUENCE, NodeFields, NodeElement, r.nodes);
  }

  lemma ResponseRoundTrip(r: Response)
    requires |ResponseFields(r)| <= MAX_INT64
    ensures DecodeResponseFields(ResponseFields(r)) == Ok(r)
  {
    hide DecodeResponseNodes, DecodePointer, PointerOctets, NodeElements, EncodeTlv, DecodeTlv, TwosComplement;
    var inner := NodeElements(r.nodes);
    var o4 := Explicit(4, inner);
    var o3 := OptPointer(3, r.errorNode) + o4;
    var flag: Bytes := if r.error then [0xff] else [0];
    var r2 := BytesField(2, flag) + o3;
    var r1 := IntField(1, r.inReplyTo) + r2;
    assert ResponseFields(r) == IntField(0, r.sequenceNumber) + r1;
    IntFieldRead(0, r.sequenceNumber, r1);
    IntFieldRead(1, r.inReplyTo, r2);
    BytesFieldRead(2, flag, o3);
    assert o4 == o4 + [];
    ExplicitRead(4, inner, []);
    ResponseNodesRoundTrip(r, r.(nodes := []));
    if r.errorNode.Some? {
      ExplicitRead(3, PointerOctets(r.errorNode.value), o4);
      PointerRoundTrip(r.errorNode.value);
    } else {
      assert o3 == o4;
    }
  }

  lemma AckRoundTrip(a: SummaryAck)
    requires |AckFields(a)| <= MAX_INT64
    ensures DecodeAckFields(AckFields(a)) == Ok(a)
  {
    hide DecodeElements, ElementOctets, EncodeTlv, DecodeTlv, TwosComplement;
    var inner := RangeElements(a.received);
    assert AckFields(a) == Explicit(0, inner) + [];
    ExplicitRead(0, inner, []);
    forall r | r in a.received && |RangeFields(r)| <= MAX_INT64
      ensures RangeElement(Tlv(UNIVERSAL, true, TAG_SEQUENCE, RangeFields(r))) == Ok(r)
    {
      RangeFieldsRoundTrip(r);
    }
    ElementsRoundTrip(UNIVERSAL, true, TAG_SEQUENCE, RangeFields, RangeElement, a.received);
  }

  /** What a sender must check before marshalling: any percentile lies in 0..100. */
  predicate Encodable(m: Message) {
    m.MsgQuery? ==> QueryEncodable(m.query)
  }

  /**
   * Every message of all seven kinds reads back as itself, exactly when any
   * percentile it carries is in range; a decoder refuses it otherwise.
   */
  lemma MessageRoundTrip(m: Message)
    requires |MessageOctets(m)| <= MAX_INT64
    ensures DecodeMessage(MessageOctets(m)) == if Encodable(m) then Ok(m) else Err(IntegerRange)
  {
    hide EncodeTlv, DecodeTlv, QueryEncodable;
    hide GetFields, SetFields, CreateFields, QueryFields, ResponseFields, AckFields, DeleteFields;
    hide DecodeGetFields, DecodeSetFields, DecodeCreateFields, DecodeQueryFields, DecodeResponseFields,
         DecodeAckFields, DecodeDeleteFields;
    var tag, fields := Envelope(m);
    assert MessageOctets(m) == Explicit(tag, fields) + [];
    ExplicitRead(tag, fields, []);
    match m
    case MsgGet(g) => GetRoundTrip(g);
    case MsgSet(s) => SetRoundTrip(s);
    case MsgCreate(c) => CreateRoundTrip(c);
    case MsgQuery(q) => QueryRoundTrip(q);
    case MsgResponse(r) => ResponseRoundTrip(r);
    case MsgSummaryAck(a) => AckRoundTrip(a);
    case MsgDelete(d) => DeleteRoundTrip(d);
  }

  lemma Envelope(m: Message) returns (tag: nat, fields: Bytes)
    ensures tag < 7 && MessageOctets(m) == Explicit(tag, fields)
    ensures tag == match m
      case MsgGet(_) => 0 case MsgSet(_) => 1 case MsgCreate(_) => 2 case MsgQuery(_) => 3
      case MsgResponse(_) => 4 case MsgSummaryAck(_) => 5 case MsgDelete(_) => 6
    ensures fields == match m
      case MsgGet(g) => GetFields(g) case MsgSet(s) => SetFields(s) case MsgCreate(c) => CreateFields(c)
      case MsgQuery(q) => QueryFields(q) case MsgResponse(r) => ResponseFields(r)
      case MsgSummaryAck(a) => AckFields(a) case MsgDelete(d) => DeleteFields(d)
  {
    match m
    case MsgGet(g) => tag, fields := 0, GetFields(g);
    case MsgSet(s) => tag, fields := 1, SetFields(s);
    case MsgCreate(c) => tag, fields := 2, CreateFields(c);
    case MsgQuery(q) => tag, fields := 3, QueryFields(q);
    case MsgResponse(r) => tag, fields := 4, ResponseFields(r);
    case MsgSummaryAck(a) => tag, fields := 5, AckFields(a);
    case MsgDelete(d) => tag, fields := 6, DeleteFields(d);
  }
}
