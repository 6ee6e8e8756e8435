/**
 * Tag-length-value framing and INTEGER contents, after
 * goimpl/internal/wire/ber.go (ITU-T X.690, sections 8.1.3 and 8.3).
 */
module Ber {
  import opened Basics

  datatype WireError =
    | Truncated | HighTagNumber | IndefiniteLength | TrailingBytes
    | EmptyInteger | IntegerRange | BadBoolean | WrongClassOrTag | BadReal

  const UNIVERSAL: nat := 0
  const CONTEXT: nat := 2
  const TAG_UTF8STRING: nat := 12
  const TAG_SEQUENCE: nat := 16

  datatype Tlv = Tlv(cls: nat, constructed: bool, tag: nat, content: Bytes)

  /** bytes.Buffer, as far as the encoders use it. */
  class Buffer {
    var data: Bytes

    constructor ()
      ensures data == []
    {
      data := [];
    }

    method Write(b: Bytes)
      modifies this
      ensures data == old(data) + b
    {
      data := data + b;
    }
  }

  // --- big-endian numbers ---------------------------------------------------

  /** The shortest big-endian digits of n, as big.Int.Bytes returns them. */
  function BigEndian(n: nat): (b: Bytes)
    ensures b == [] <==> n == 0
    ensures b != [] ==> b[0] != 0
  {
    if n == 0 then [] else BigEndian(n / 256) + [n % 256]
  }

  /** The number that big-endian digits stand for, as big.Int.SetBytes reads them. */
  function Number(b: Bytes): nat {
    if b == [] then 0 else Number(b[..|b| - 1]) * 256 + b[|b| - 1]
  }

  lemma {:induction false} NumberBigEndian(n: nat)
    ensures Number(BigEndian(n)) == n
  {
    if n > 0 {
      NumberBigEndian(n / 256);
      assert BigEndian(n)[..|BigEndian(n)| - 1] == BigEndian(n / 256);
    }
  }

  lemma {:induction false} NumberCons(x: byte, b: Bytes)
    ensures Number([x] + b) == x * Pow256(|b|) + Number(b)
  {
    if b == [] {
      assert [x] + b == [x];
    } else {
      var init, last := b[..|b| - 1], b[|b| - 1];
      assert ([x] + b)[..|b|] == [x] + init;
      NumberCons(x, init);
      assert Pow256(|b|) == 256 * Pow256(|init|);
      assert x * Pow256(|b|) == x * Pow256(|init|) * 256;
    }
  }

  lemma {:induction false} NumberBound(b: Bytes)
    ensures Number(b) < Pow256(|b|)
  {
    if b != [] {
      NumberBound(b[..|b| - 1]);
    }
  }

  /** A number below 256^k needs at most k digits; one at or above 256^k needs more. */
  lemma {:induction false} BigEndianSize(n: nat, k: nat)
    ensures |BigEndian(n)| <= k <==> n < Pow256(k)
  {
    if k > 0 && n > 0 {
      BigEndianSize(n / 256, k - 1);
    }
  }

  // --- length octets and TLV --------------------------------------------------

  /** writeLength's octets; byte(len(lb)) keeps the low bits of the octet count. */
  function LengthOctets(length: nat): (b: Bytes)
    ensures b != []
  {
    if length < 0x80 then [length]
    else
      var digits := BigEndian(length);
      [0x80 + |digits| % 128] + digits
  }

  lemma LengthFitsEightOctets(length: nat)
    requires length <= MAX_INT64
    ensures |BigEndian(length)| <= 8
  {
    assert Pow256(8) == 0x1_0000_0000_0000_0000 by {
      assert Pow256(2) == 65536;
      assert Pow256(4) == 0x1_0000_0000;
      assert Pow256(6) == 0x1_0000_0000_0000;
    }
    BigEndianSize(length, 8);
  }

  function TagOctet(cls: nat, constructed: bool, tag: nat): byte
    requires cls < 4 && tag < 31
  {
    cls * 64 + (if constructed then 32 else 0) + tag
  }

  function EncodeTlv(cls: nat, constructed: bool, tag: nat, content: Bytes): (b: Bytes)
    requires cls < 4 && tag < 31
    ensures |b| >= |content| + 2
  {
    [TagOctet(cls, constructed, tag)] + LengthOctets(|content|) + content
  }

  method WriteLength(buf: Buffer, length: nat)
    modifies buf
    ensures buf.data == old(buf.data) + LengthOctets(length)
  {
    hide BigEndian, EncodeTlv;
    if length < 0x80 {
      buf.Write([length]);
      return;
    }
    var lb := LengthDigits(length);
    buf.Write([0x80 + |lb| % 128]);
    buf.Write(lb);
  }

  /** writeLength's loop: least significant octet first, each put in front. */
  method LengthDigits(length: nat) returns (lb: Bytes)
    ensures lb == BigEndian(length)
  {
    lb := [];
    var n := length;
    while n > 0
      invariant BigEndian(length) == BigEndian(n) + lb
    {
      lb := [n % 256] + lb;
      n := n / 256;
    }
  }

  method WriteTagLen(buf: Buffer, cls: nat, constructed: bool, tag: nat, length: nat)
    requires cls < 4 && tag < 31
    modifies buf
    ensures buf.data == old(buf.data) + [TagOctet(cls, constructed, tag)] + LengthOctets(length)
  {
    buf.Write([TagOctet(cls, constructed, tag)]);
    WriteLength(buf, length);
  }

  /** encodeBytes and every explicit or sequence wrapper: header, then content. */
  method WriteTlv(buf: Buffer, cls: nat, constructed: bool, tag: nat, content: Bytes)
    requires cls < 4 && tag < 31
    modifies buf
    ensures buf.data == old(buf.data) + EncodeTlv(cls, constructed, tag, content)
  {
    WriteTagLen(buf, cls, constructed, tag, |content|);
    buf.Write(content);
  }

  /** Parses one TLV from the front of data; the rest is what follows it. */
  function DecodeTlv(data: Bytes): (r: Result<(Tlv, Bytes), WireError>)
    ensures r.Ok? ==> |r.value.1| < |data| && |r.value.0.content| < |data|
  {
    if |data| < 2 then Err(Truncated)
    else
      var first, lengthByte := data[0], data[1];
      if first % 32 == 31 then Err(HighTagNumber)
      else if lengthByte < 0x80 then SplitContent(first, lengthByte, data[2..])
      else if lengthByte == 0x80 then Err(IndefiniteLength)
      else
        var k := lengthByte - 0x80;
        if |data| - 2 < k then Err(Truncated)
        else SplitContent(first, Number(data[2..2 + k]), data[2 + k..])
  }

  function SplitContent(first: byte, length: nat, rest: Bytes): Result<(Tlv, Bytes), WireError> {
    if |rest| < length then Err(Truncated)
    else Ok((Tlv(first / 64, (first / 32) % 2 == 1, first % 32, rest[..length]), rest[length..]))
  }

  /** readTLV's loop over the length octets. */
  method ReadLength(octets: Bytes) returns (length: nat)
    ensures length == Number(octets)
  {
    length := 0;
    for i := 0 to |octets|
      invariant length == Number(octets[..i])
    {
      length := length * 256 + octets[i];
      assert octets[..i + 1][..i] == octets[..i];
    }
    assert octets[..|octets|] == octets;
  }

  method ReadTlv(data: Bytes) returns (r: Result<(Tlv, Bytes), WireError>)
    ensures r == DecodeTlv(data)
  {
    hide Number;
    if |data| < 2 {
      return Err(Truncated);
    }
    var first := data[0];
    if first % 32 == 31 {
      return Err(HighTagNumber);
    }
    var lengthByte := data[1];
    var rest := data[2..];
    var length: nat;
    if lengthByte < 0x80 {
      length := lengthByte;
    } else {
      var numBytes := lengthByte % 128;
      if numBytes == 0 {
        return Err(IndefiniteLength);
      }
      if |rest| < numBytes {
        return Err(Truncated);
      }
      length := ReadLength(rest[..numBytes]);
      assert rest[..numBytes] == data[2..2 + numBytes];
      rest := rest[numBytes..];
      assert rest == data[2 + numBytes..];
    }
    if |rest| < length {
      return Err(Truncated);
    }
    return Ok((Tlv(first / 64, (first / 32) % 2 == 1, first % 32, rest[..length]), rest[length..]));
  }

  lemma TagOctetFields(cls: nat, constructed: bool, tag: nat)
    requires cls < 4 && tag < 31
    ensures var b := TagOctet(cls, constructed, tag);
            b / 64 == cls && b % 32 == tag && ((b / 32) % 2 == 1 <==> constructed)
  {
  }

  /** The content and the rest part again once the header is off. */
  lemma SplitJoined(first: byte, content: Bytes, rest: Bytes)
    ensures SplitContent(first, |content|, content + rest)
         == Ok((Tlv(first / 64, (first / 32) % 2 == 1, first % 32, content), rest))
  {
    var tail := content + rest;
    assert tail[..|content|] == content && tail[|content|..] == rest;
  }

  lemma HeaderRoundTrip(first: byte, length: nat, tail: Bytes)
    requires first % 32 != 31 && length <= MAX_INT64 && length <= |tail|
    ensures DecodeTlv([first] + LengthOctets(length) + tail) == SplitContent(first, length, tail)
  {
    hide BigEndian, Number, SplitContent;
    var data := [first] + LengthOctets(length) + tail;
    if length < 0x80 {
      assert data[2..] == tail;
    } else {
      var digits := BigEndian(length);
      LengthFitsEightOctets(length);
      NumberBigEndian(length);
      assert data[1] == 0x80 + |digits|;
      assert data[2..2 + |digits|] == digits;
      assert data[2 + |digits|..] == tail;
    }
  }

  /** X.690 section 8.1.3: an encoded TLV reads back, and leaves what follows it alone. */
  lemma TlvRoundTrip(cls: nat, constructed: bool, tag: nat, content: Bytes, rest: Bytes)
    requires cls < 4 && tag < 31 && |content| <= MAX_INT64
    ensures DecodeTlv(EncodeTlv(cls, constructed, tag, content) + rest)
         == Ok((Tlv(cls, constructed, tag, content), rest))
  {
    var first := TagOctet(cls, constructed, tag);
    TagOctetFields(cls, constructed, tag);
    SplitJoined(first, content, rest);
    HeaderRoundTrip(first, |content|, content + rest);
    assert EncodeTlv(cls, constructed, tag, content) + rest
        == [first] + LengthOctets(|content|) + (content + rest);
  }

  // --- INTEGER ------------------------------------------------------------------

  function BitLen(n: nat): nat {
    if n == 0 then 0 else 1 + BitLen(n / 2)
  }

  /** minimalTwosComplement: the contents octets written for v. */
  function TwosComplement(v: int): (b: Bytes)
    ensures b != []
  {
    if v == 0 then [0]
    else if v > 0 then
      var b := BigEndian(v);
      if b[0] >= 128 then [0] + b else b
    else
      var nBytes := BitLen(-v) / 8 + 1;
      NegativeBounds(v);
      BigEndian(Pow256(nBytes) + v)
  }

  function DecodeInt(content: Bytes): Result<int, WireError> {
    if content == [] then Err(EmptyInteger)
    else if content[0] < 128 then Ok(Number(content))
    else Ok(Number(content) - Pow256(|content|))
  }

  function DecodeInt64(content: Bytes): Result<int64, WireError> {
    var v :- DecodeInt(content);
    if -0x8000_0000_0000_0000 <= v <= MAX_INT64 then Ok(v) else Err(IntegerRange)
  }

  function DecodeUint64(content: Bytes): Result<uint64, WireError> {
    var v :- DecodeInt(content);
    if 0 <= v < 0x1_0000_0000_0000_0000 then Ok(v) else Err(IntegerRange)
  }

  function DecodeBool(content: Bytes): Result<bool, WireError> {
    if |content| != 1 then Err(BadBoolean) else Ok(content[0] != 0)
  }

  /** 2 to the power k. */
  function Pow2(k: nat): (p: nat)
    ensures p >= 1
  {
    if k == 0 then 1 else 2 * Pow2(k - 1)
  }

  lemma {:induction false} BitLenBounds(n: nat)
    ensures n < Pow2(BitLen(n))
    ensures n > 0 ==> BitLen(n) > 0 && Pow2(BitLen(n) - 1) <= n
  {
    if n > 0 {
      BitLenBounds(n / 2);
    }
  }

  lemma {:induction false} Pow2Monotone(a: nat, b: nat)
    requires a <= b
    ensures Pow2(a) <= Pow2(b)
  {
    if a < b {
      Pow2Monotone(a, b - 1);
    }
  }

  lemma EightDoublings(n: nat)
    ensures Pow2(n + 7) == 128 * Pow2(n) && Pow2(n + 8) == 256 * Pow2(n)
  {
    assert Pow2(n + 2) == 4 * Pow2(n);
    assert Pow2(n + 4) == 4 * Pow2(n + 2);
    assert Pow2(n + 6) == 4 * Pow2(n + 4);
    assert Pow2(n + 8) == 2 * Pow2(n + 7) == 4 * Pow2(n + 6);
  }

  lemma {:induction false} Pow2OfBytes(k: nat)
    ensures Pow2(8 * k) == Pow256(k)
    ensures Pow2(8 * k + 7) == 128 * Pow256(k)
  {
    if k > 0 {
      Pow2OfBytes(k - 1);
      EightDoublings(8 * (k - 1));
    }
    EightDoublings(8 * k);
  }

  /**
   * The octet count chosen for a negative v always suffices, with room for the
   * sign; it is one more than needed exactly when v is the least value of the
   * next shorter length.
   */
  lemma NegativeBounds(v: int)
    requires v < 0
    ensures var k := BitLen(-v) / 8; -v < 128 * Pow256(k)
    ensures var k := BitLen(-v) / 8; k > 0 ==> 128 * Pow256(k - 1) <= -v
  {
    var bits := BitLen(-v);
    var k := bits / 8;
    BitLenBounds(-v);
    Pow2OfBytes(k);
    Pow2Monotone(bits, 8 * k + 7);
    if k > 0 {
      Pow2OfBytes(k - 1);
      Pow2Monotone(8 * (k - 1) + 7, bits - 1);
    }
  }

  /** k + 1 digits standing for a number at or above 128 * 256^k begin with a digit of 128 or more. */
  lemma LeadingOctet(b: Bytes, k: nat)
    requires |b| == k + 1 && Number(b) >= 128 * Pow256(k)
    ensures b[0] >= 128
  {
    var p, x := Pow256(k), b[0];
    assert x <= 127 ==> x * p <= 127 * p;
    assert b == [x] + b[1..];
    NumberCons(x, b[1..]);
    NumberBound(b[1..]);
  }

  /** Digits are determined by their number and their count. */
  lemma {:induction false} NumberInjective(a: Bytes, b: Bytes)
    requires |a| == |b| && Number(a) == Number(b)
    ensures a == b
  {
    if a != [] {
      NumberInjective(a[..|a| - 1], b[..|b| - 1]);
    }
  }

  /** The two's-complement octets of a negative number: how many, and the leading one. */
  lemma NegativeOctets(v: int)
    requires v < 0
    ensures var b := TwosComplement(v); var k := BitLen(-v) / 8;
            |b| == k + 1 && Number(b) == Pow256(k + 1) + v && b[0] >= 128
  {
    var k := BitLen(-v) / 8;
    NegativeBounds(v);
    var tc := Pow256(k + 1) + v;
    NumberBigEndian(tc);
    BigEndianSize(tc, k + 1);
    BigEndianSize(tc, k);
    LeadingOctet(TwosComplement(v), k);
  }

  lemma PositiveRoundTrip(v: int)
    requires v > 0
    ensures DecodeInt(TwosComplement(v)) == Ok(v)
  {
    hide Pow256;
    NumberBigEndian(v);
    NumberCons(0, BigEndian(v));
  }

  lemma NegativeRoundTrip(v: int)
    requires v < 0
    ensures DecodeInt(TwosComplement(v)) == Ok(v)
  {
    hide Pow256, BitLen, TwosComplement, Number;
    NegativeOctets(v);
  }

  /** decodeBigInt undoes minimalTwosComplement on every integer. */
  lemma IntegerRoundTrip(v: int)
    ensures DecodeInt(TwosComplement(v)) == Ok(v)
  {
    if v > 0 {
      PositiveRoundTrip(v);
    } else if v < 0 {
      NegativeRoundTrip(v);
    } else {
      assert Number([0]) == 0;
    }
  }

  /** X.690 section 8.3.2: the first nine bits are neither all ones nor all zeros. */
  predicate Shortest(b: Bytes) {
    |b| > 1 ==> !(b[0] == 0 && b[1] < 128) && !(b[0] == 255 && b[1] >= 128)
  }

  /** v is -2^(8k-1) for some k >= 1. */
  ghost predicate LeastOfItsLength(v: int) {
    exists k: nat :: v == -(128 * Pow256(k))
  }

  /** Contents are in shortest form except for exactly the values -2^(8k-1). */
  lemma IntegerMinimality(v: int)
    ensures Shortest(TwosComplement(v)) <==> !LeastOfItsLength(v)
    ensures LeastOfItsLength(v) ==>
              TwosComplement(v)[0] == 255 && Shortest(TwosComplement(v)[1..])
              && DecodeInt(TwosComplement(v)[1..]) == Ok(v)
  {
    if v < 0 {
      NegativeMinimality(v);
    } else {
      assert forall k: nat :: v != -(128 * Pow256(k));
    }
  }

  lemma NegativeMinimality(v: int)
    requires v < 0
    ensures Shortest(TwosComplement(v)) <==> !LeastOfItsLength(v)
    ensures LeastOfItsLength(v) ==>
              TwosComplement(v)[0] == 255 && Shortest(TwosComplement(v)[1..])
              && DecodeInt(TwosComplement(v)[1..]) == Ok(v)
  {
    var b, k := TwosComplement(v), BitLen(-v) / 8;
    NegativeBounds(v);
    NegativeOctets(v);
    if LeastOfItsLength(v) {
      var j: nat :| v == -(128 * Pow256(j));
      PowOrder(j, k);
    }
    if k > 0 {
      NegativeLeadingPair(b, k, v);
    }
  }

  lemma NegativeLeadingPair(b: Bytes, k: nat, v: int)
    requires k > 0 && |b| == k + 1 && Number(b) == Pow256(k + 1) + v
    requires 128 * Pow256(k - 1) <= -v
    ensures b[0] == 255 && b[1] >= 128 <==> v == -(128 * Pow256(k - 1))
    ensures v == -(128 * Pow256(k - 1)) ==>
              b[1] == 128 && Number(b[1..]) == 128 * Pow256(k - 1)
  {
    assert b == [b[0]] + b[1..] && b[1..] == [b[1]] + b[2..];
    NumberCons(b[0], b[1..]);
    NumberCons(b[1], b[2..]);
    NumberBound(b[2..]);
    var p := Pow256(k - 1);
    assert Pow256(k + 1) == 256 * Pow256(k) == 256 * (256 * p);
    LeadingPair(b[0], b[1], Number(b[2..]), p, v);
  }

  lemma PowOrder(j: nat, k: nat)
    requires 128 * Pow256(j) < 128 * Pow256(k)
    requires k > 0 ==> 128 * Pow256(k - 1) <= 128 * Pow256(j)
    ensures k > 0 && j == k - 1
  {
    if j >= k {
      PowMonotone(k, j);
      assert false;
    } else if j < k - 1 {
      PowMonotone(j + 1, k - 1);
      assert false;
    }
  }

  lemma {:induction false} PowMonotone(a: nat, b: nat)
    requires a <= b
    ensures Pow256(a) <= Pow256(b)
  {
    if a < b {
      PowMonotone(a, b - 1);
    }
  }

  lemma LeadingPair(x: byte, y: byte, z: nat, p: nat, v: int)
    requires p > 0 && z < p && 128 * p <= -v
    requires x * (256 * p) + (y * p + z) == 256 * (256 * p) + v
    ensures x == 255 && y >= 128 <==> v == -(128 * p)
    ensures v == -(128 * p) ==> y == 128 && z == 0
  {
    var q := x * 256 + y;
    assert q * p == x * (256 * p) + y * p;
    assert q * p + z == 65536 * p + v;
    if q >= 65409 {
      assert q * p >= 65409 * p by { MulMonotone(65409, q, p); }
    } else if q <= 65407 {
      assert q * p <= 65407 * p by { MulMonotone(q, 65407, p); }
    }
  }

  lemma MulMonotone(a: int, b: int, p: nat)
    requires a <= b
    ensures a * p <= b * p
  {
  }

  /** minimalTwosComplement as the code computes it, with the padding loop. */
  method MinimalTwosComplement(v: int) returns (b: Bytes)
    ensures b == TwosComplement(v)
  {
    if v == 0 {
      return [0];
    }
    if v > 0 {
      b := BigEndian(v);
      if b[0] >= 128 {
        b := [0] + b;
      }
      return;
    }
    b := NegativeOctetsPadded(v);
  }

  /** The negative case: 256^nBytes + v in big-endian digits, padded to nBytes. */
  method NegativeOctetsPadded(v: int) returns (b: Bytes)
    requires v < 0
    ensures b == TwosComplement(v)
  {
    hide Pow256, BitLen, TwosComplement, BigEndian, Number;
    var nBytes := BitLen(-v) / 8 + 1;
    NegativeOctets(v);
    NumberBound(TwosComplement(v));
    var tc := Pow256(nBytes) + v;
    b := BigEndian(tc);
    NumberBigEndian(tc);
    BigEndianSize(tc, nBytes);
    while |b| < nBytes
      invariant |b| <= nBytes && Number(b) == tc
    {
      NumberCons(0, b);
      b := [0] + b;
    }
    NumberInjective(b, TwosComplement(v));
  }
}
