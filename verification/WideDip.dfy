/**
 * A result of which something fits and nothing is sent: the search of
 * goimpl/internal/tree/tree.go:466-495 with the size of a whole Response as its measure,
 * on a node with a long chain below it and a large sibling after it.
 */
module WideDip {
  import opened Basics
  import opened WireTypes
  import opened Ber
  import opened Codec
  import opened Expression
  import opened Flatten
  import opened Fit
  import opened AckSize

  const BUDGET: nat := 1472

  /** n nodes, each but the last with the next as its only child. */
  function Chain(n: nat): seq<Rose> {
    if n == 0 then [] else [Rose([], NoValue, Chain(n - 1))]
  }

  function Large(): Bytes {
    seq(BUDGET, _ => 0)
  }

  function LastTree(): Rose {
    Rose([], OctetStringValue(Large()), [])
  }

  /** 34 nodes, one below the other, and one large node after the topmost. */
  function Forest(): seq<Rose> {
    [Rose([], NoValue, Chain(33)), LastTree()]
  }

  function Plain(first: int64, next: int64): WireNode {
    WireNode([], NoValue, OffsetPointer(first), OffsetPointer(next))
  }

  lemma {:induction false} ChainFlat(n: nat)
    requires n <= 34
    ensures Size(Chain(n)) == n
    ensures forall i :: 0 <= i < n ==> Flat(Chain(n))[i] == Plain(if i < n - 1 then 1 else 0, 0)
  {
    if n > 0 {
      ChainFlat(n - 1);
      assert Chain(n)[1..] == [];
      forall i | 0 <= i < n
        ensures Flat(Chain(n))[i] == Plain(if i < n - 1 then 1 else 0, 0)
      {
        if i > 0 {
          assert Flat(Chain(n))[i] == Flat(Chain(n - 1))[i - 1];
        }
      }
    }
  }

  lemma ForestParts()
    ensures |Forest()| == 2 && Forest()[0].kids == Chain(33) && Forest()[0].key == [] && Forest()[0].value == NoValue
    ensures Forest()[1..] == [LastTree()] && LastTree().kids == []
    ensures LastTree().key == [] && LastTree().value == OctetStringValue(Large())
  {
    hide Chain, Large;
  }

  lemma LastFlat(last: Rose)
    requires last.kids == []
    ensures Size([last]) == 1
    ensures Flat([last]) == [WireNode(last.key, last.value, OffsetPointer(0), OffsetPointer(0))]
  {
    assert [last][1..] == [];
  }

  lemma ForestFlat()
    ensures Size(Forest()) == 35
    ensures var flat := Flat(Forest());
            && flat[0] == Plain(1, 34)
            && (forall i :: 1 <= i < 34 ==> flat[i] == Plain(if i < 33 then 1 else 0, 0))
            && flat[34] == WireNode([], OctetStringValue(Large()), OffsetPointer(0), OffsetPointer(0))
  {
    hide Large, Forest, Flat, Size, Chain, LastTree;
    ForestParts();
    ChainFlat(33);
    LastFlat(LastTree());
    FlatHeadSize(Forest());
    FlatHead(Forest());
    var flat := Flat(Forest());
    forall i | 1 <= i < 34
      ensures flat[i] == Plain(if i < 33 then 1 else 0, 0)
    {
      assert flat[i] == Flat(Chain(33))[i - 1];
    }
  }

  // --- sizes ------------------------------------------------------------------------

  function Element(n: WireNode): Bytes {
    EncodeTlv(UNIVERSAL, true, TAG_SEQUENCE, NodeFields(n))
  }

  lemma TlvSize(cls: nat, constructed: bool, tag: nat, content: Bytes)
    requires cls < 4 && tag < 31 && |content| < 65536
    ensures |content| + 2 <= |EncodeTlv(cls, constructed, tag, content)| <= |content| + (if |content| < 128 then 2 else 4)
  {
    hide LengthOctets;
    LengthOctetsSize(|content|);
  }

  lemma SmallInteger(v: int)
    requires 0 <= v < 128
    ensures |TwosComplement(v)| == 1
  {
  }

  lemma PlainSize(first: int64, next: int64)
    requires 0 <= first < 128 && 0 <= next < 128
    ensures |Element(Plain(first, next))| <= 18
  {
    SmallInteger(first);
    SmallInteger(next);
    hide TwosComplement;
  }

  /** A pointer as its continuation makes it at least as long as the expression it holds. */
  lemma ContinuationSize(n: WireNode)
    ensures n.firstChild.AbsolutePointer? ==> |Element(n)| >= |n.firstChild.expr|
    ensures n.nextSibling.AbsolutePointer? ==> |Element(n)| >= |n.nextSibling.expr|
    ensures n.firstChild.AbsolutePointer? && n.nextSibling.AbsolutePointer? ==>
              |Element(n)| >= |n.firstChild.expr| + |n.nextSibling.expr|
    ensures n.value.OctetStringValue? ==> |Element(n)| >= |n.value.octets|
  {
    hide EncodeTlv, TwosComplement;
  }

  lemma {:induction false} ElementsAtLeast(ns: seq<WireNode>, i: nat, j: nat)
    requires i <= j < |ns|
    ensures |NodeElements(ns)| >= |Element(ns[j])| + (if i < j then |Element(ns[i])| else 0)
  {
    hide NodeFields, EncodeTlv;
    var n := |ns| - 1;
    if j < n {
      ElementsAtLeast(ns[..n], i, j);
    } else if i < n {
      ElementsAtLeast(ns[..n], i, i);
    }
  }

  lemma {:induction false} ElementsAtMost(ns: seq<WireNode>)
    requires ns != [] && forall i :: 1 <= i < |ns| ==> |Element(ns[i])| <= 18
    ensures |NodeElements(ns)| <= |Element(ns[0])| + 18 * (|ns| - 1)
  {
    hide NodeFields, EncodeTlv;
    var n := |ns| - 1;
    if n > 0 {
      ElementsAtMost(ns[..n]);
    } else {
      assert NodeElements(ns[..0]) == [];
    }
  }

  lemma ResponseSizes(tx: int64, reply: int64, ns: seq<WireNode>)
    requires 0 < tx < MAX_SEQ && 0 < reply < MAX_SEQ
    ensures ResponseSize(tx, reply)(ns) >= |NodeElements(ns)|
    ensures |NodeElements(ns)| < 2000 ==> ResponseSize(tx, reply)(ns) <= |NodeElements(ns)| + 27
  {
    hide NodeElements, TwosComplement;
    SixOctets(tx);
    SixOctets(reply);
    var octets := NodeElements(ns);
    if |octets| < 2000 {
      var fields := ResponseFields(Response(tx, reply, false, None, ns));
      TlvSize(CONTEXT, false, 0, TwosComplement(tx));
      TlvSize(CONTEXT, false, 1, TwosComplement(reply));
      TlvSize(CONTEXT, true, 4, octets);
      TlvSize(CONTEXT, false, 2, [0]);
      hide EncodeTlv;
      assert |fields| <= 8 + 8 + 3 + |octets| + 4;
      TlvSize(CONTEXT, true, 4, fields);
    }
  }

  // --- which windows fit ------------------------------------------------------------------

  ghost predicate LongBase(base: Bytes) {
    740 <= |base| <= 780
  }

  /** The windows that end in the chain below the topmost node carry two continuations: too many. */
  lemma ShortWindow(base: Bytes, tx: int64, reply: int64, n: nat)
    requires LongBase(base) && 0 < tx < MAX_SEQ && 0 < reply < MAX_SEQ && 1 <= n <= 33
    ensures Size(Forest()) == 35 && ResponseSize(tx, reply)(Window(Flat(Forest()), 0, n, base)) > BUDGET
  {
    hide Forest, Flat, NodeElements, NodeFields, EncodeTlv, ResponseFields, ResponseSize, Decimal, Size;
    ForestFlat();
    var flat := Flat(Forest());
    var w := Window(flat, 0, n, base);
    assert w[0] == FixNode(flat[0], 0, n, base) && w[n - 1] == FixNode(flat[n - 1], n - 1, n, base);
    assert w[0].nextSibling == AbsolutePointer(ResumeExpression(base, 34));
    assert w[n - 1].firstChild == AbsolutePointer(ResumeExpression(base, n));
    hide Window, FixNode;
    ContinuationSize(w[0]);
    ContinuationSize(w[n - 1]);
    ElementsAtLeast(w, 0, n - 1);
    ResponseSizes(tx, reply, w);
  }

  /** The window of the whole chain carries one, and fits. */
  lemma ChainWindow(base: Bytes, tx: int64, reply: int64)
    requires LongBase(base) && 0 < tx < MAX_SEQ && 0 < reply < MAX_SEQ
    ensures Size(Forest()) == 35 && ResponseSize(tx, reply)(Window(Flat(Forest()), 0, 34, base)) <= BUDGET
  {
    hide Forest, Flat, NodeElements, ResponseFields, ResponseSize, Size, Element;
    ForestFlat();
    var flat := Flat(Forest());
    var w := Window(flat, 0, 34, base);
    forall i | 1 <= i < 34
      ensures |Element(w[i])| <= 18
    {
      assert w[i] == FixNode(flat[i], i, 34, base) == flat[i];
      PlainSize(if i < 33 then 1 else 0, 0);
    }
    assert w[0] == FixNode(flat[0], 0, 34, base);
    TopElement(base);
    hide Window, FixNode;
    ElementsAtMost(w);
    ResponseSizes(tx, reply, w);
  }

  lemma TopElement(base: Bytes)
    requires LongBase(base)
    ensures |Element(FixNode(Plain(1, 34), 0, 34, base))| <= 820
  {
    hide TwosComplement, EncodeTlv;
    assert Decimal(34) == [51, 52];
    var expr := ResumeExpression(base, 34);
    var pointer := BytesField(0, expr);
    SmallInteger(1);
    TlvSize(CONTEXT, false, 0, expr);
    TlvSize(CONTEXT, true, 3, pointer);
    TlvSize(CONTEXT, false, 1, TwosComplement(1));
    TlvSize(CONTEXT, true, 2, IntField(1, 1));
    TlvSize(CONTEXT, false, 0, []);
    TlvSize(CONTEXT, false, 7, []);
    TlvSize(CONTEXT, true, 1, BytesField(7, []));
    TlvSize(UNIVERSAL, true, TAG_SEQUENCE, NodeFields(FixNode(Plain(1, 34), 0, 34, base)));
  }

  lemma WholeIsTooLarge(base: Bytes, tx: int64, reply: int64)
    requires 0 < tx < MAX_SEQ && 0 < reply < MAX_SEQ
    ensures Size(Forest()) == 35 && ResponseSize(tx, reply)(Flat(Forest())) > BUDGET
  {
    hide Forest, Flat, NodeElements, NodeFields, EncodeTlv, ResponseFields, ResponseSize, Size;
    ForestFlat();
    var flat := Flat(Forest());
    LargeElement(flat[34]);
    ElementsAtLeast(flat, 34, 34);
    ResponseSizes(tx, reply, flat);
  }

  lemma LargeElement(n: WireNode)
    requires n.value == OctetStringValue(Large())
    ensures |Element(n)| > BUDGET
  {
    hide TwosComplement;
    assert |NodeFields(n)| >= BUDGET;
    hide NodeFields;
  }

  lemma NoSizeFits(fits: nat -> bool, total: nat, n: nat)
    requires 0 < n && forall m: nat :: n <= m <= DIP_SPAN ==> !fits(m)
    ensures Climb(fits, total, 0, n) == 0
    decreases DIP_SPAN + 1 - n
  {
    if n <= DIP_SPAN && n < total {
      NoSizeFits(fits, total, n + 1);
    }
  }

  lemma SearchMisses(fits: nat -> bool)
    requires (forall m: nat :: 1 <= m <= 33 ==> !fits(m)) && !fits(35)
    ensures Chosen(fits, 35) == 0
    ensures fits(34) ==> Largest(fits, 35) == 34
  {
    assert BinarySearch(fits, 0, 34) == 0 by {
      assert BinarySearch(fits, 0, 16) == BinarySearch(fits, 0, 7) == BinarySearch(fits, 0, 3) == BinarySearch(fits, 0, 1) == 0;
    }
    NoSizeFits(fits, 35, 1);
    assert fits(34) ==> Largest(fits, 35) == Largest(fits, 34);
  }

  /**
   * A dip one wider than the span is missed: of this result 34 nodes fit a datagram of
   * 1472 octets, and the reply sent is none at all.
   */
  lemma WideDipIsMissed(base: Bytes, tx: int64, reply: int64)
    requires 740 <= |base| <= 780 && 0 < tx < MAX_SEQ && 0 < reply < MAX_SEQ
    ensures Size(Forest()) == 35
    ensures var (flat, measure) := (Flat(Forest()), ResponseSize(tx, reply));
            && Delivered(flat, 0, base, BUDGET, measure) == None
            && measure(Window(flat, 0, 34, base)) <= BUDGET
            && Largest(Fitting(flat, 0, base, BUDGET, measure), 35) == 34
  {
    hide Forest, Flat, ResponseSize, Window, Chosen, Largest, Size, Climb;
    ForestFlat();
    var flat, measure := Flat(Forest()), ResponseSize(tx, reply);
    var fits := Fitting(flat, 0, base, BUDGET, measure);
    forall m: nat | 1 <= m <= 33
      ensures !fits(m)
    {
      ShortWindow(base, tx, reply, m);
    }
    ChainWindow(base, tx, reply);
    WholeIsTooLarge(base, tx, reply);
    ForestIsRelative();
    WholeWindow(flat, 0, base);
    assert flat[0..] == flat;
    SearchMisses(fits);
  }

  lemma ForestIsRelative()
    ensures Size(Forest()) == 35 && Relative(Flat(Forest()))
  {
    ForestFlat();
    FlatIsRelative(Forest());
  }
}
