/**
 * The message types of goimpl/internal/wire/types.go. A Go struct with a Kind
 * discriminator is a datatype with one constructor per kind; integer widths are
 * subset types; a float64 is its eight raw bytes.
 */
module WireTypes {
  import opened Basics

  type Float64 = b: Bytes | |b| == 8 witness [0, 0, 0, 0, 0, 0, 0, 0]

  datatype NodePointer =
    | AbsolutePointer(expr: Bytes)
    | OffsetPointer(delta: int64)
    | NonePointer

  datatype NodeValue =
    | Integer32Value(i32: int32)
    | Unsigned32Value(u32: uint32)
    | Counter32Value(c32: uint32)
    | Counter64Value(c64: uint64)
    | TimeTicksValue(ticks: uint32)
    | OctetStringValue(octets: Bytes)
    | RealValue(bits: Float64)
    | NoValue
  {
    /** Everything except octetString and noValue takes part in aggregation. */
    predicate IsNumeric() {
      !OctetStringValue? && !NoValue?
    }
  }

  datatype WireNode = WireNode(key: Bytes, value: NodeValue, firstChild: NodePointer, nextSibling: NodePointer)

  datatype SetEdit = SetEdit(
    target: Bytes,
    newValue: Option<NodeValue>,
    newFirstChild: Option<NodePointer>,
    newNextSibling: Option<NodePointer>,
    newParent: Option<Bytes>)

  datatype AggregationMethod = AggMin | AggMax | AggMean | AggStdDev | AggPercentile(percentile: int64)

  datatype CollectionMode = CollectOnce | CollectInterval(interval: int64) | CollectOnChange

  datatype SequenceRange = SequenceRange(first: int64, last: int64)

  datatype Get = Get(sequenceNumber: int64, target: NodePointer)

  datatype Set = Set(sequenceNumber: int64, edits: seq<SetEdit>)

  datatype Create = Create(sequenceNumber: int64, key: Bytes, value: Option<NodeValue>, parent: Option<Bytes>)

  datatype Query = Query(
    sequenceNumber: int64,
    nodeExpression: Bytes,
    collectionMode: CollectionMode,
    aggregationInterval: Option<int64>,
    aggregationMethod: Option<AggregationMethod>,
    transferInterval: int64)

  datatype Response = Response(
    sequenceNumber: int64,
    inReplyTo: int64,
    error: bool,
    errorNode: Option<NodePointer>,
    nodes: seq<WireNode>)

  datatype SummaryAck = SummaryAck(received: seq<SequenceRange>)

  datatype Delete = Delete(sequenceNumber: int64, targets: seq<Bytes>)

  datatype Message =
    | MsgGet(get: Get)
    | MsgSet(set_: Set)
    | MsgCreate(create: Create)
    | MsgQuery(query: Query)
    | MsgResponse(response: Response)
    | MsgSummaryAck(ack: SummaryAck)
    | MsgDelete(delete: Delete)
}
