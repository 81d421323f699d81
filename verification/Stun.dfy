/** STUN binding responses and the transactions that may accept them
    (pkg/stun/stun_client.go:111-151, 205-263, 272-433; sections 6, 15 and 15.2 of RFC 5389). */
module Stun {
  import opened Bytes
  import opened Replay
  import opened ServerModel

  const HEADER: nat := 20
  const ID_LENGTH: nat := 12
  const COOKIE: U32 := 0x2112_A442
  const BINDING_RESPONSE: U16 := 0x0101
  const XOR_MAPPED_ADDRESS: U16 := 0x0020
  const TTL: int := 5 * SECOND

  // ----- Exclusive or ---------------------------------------------------------------------

  /** Go's `^` on unsigned words, by binary digits. */
  function Xor(x: nat, y: nat): nat
  {
    if x == 0 && y == 0 then 0 else 2 * Xor(x / 2, y / 2) + if x % 2 != y % 2 then 1 else 0
  }

  lemma {:induction false} XorTwice(x: nat, y: nat)
    ensures Xor(Xor(x, y), y) == x
  {
    if x != 0 || y != 0 {
      assert Xor(x, y) / 2 == Xor(x / 2, y / 2);
      XorTwice(x / 2, y / 2);
    }
  }

  lemma {:induction false} XorBound(x: nat, y: nat, k: nat)
    requires x < Pow2(k) && y < Pow2(k)
    ensures Xor(x, y) < Pow2(k)
  {
    if k > 0 {
      XorBound(x / 2, y / 2, k - 1);
    }
  }

  /** Exclusive or by binary digits. */
  lemma {:induction false} XorDigit(x: nat, y: nat, d: nat)
    ensures Bit(Xor(x, y), d) <==> Bit(x, d) != Bit(y, d)
  {
    if x == 0 && y == 0 {
      NoDigits(d);
    } else if d > 0 {
      assert Xor(x, y) / 2 == Xor(x / 2, y / 2);
      XorDigit(x / 2, y / 2, d - 1);
    }
  }

  lemma XorDigits(x: nat, y: nat)
    ensures Xor(x, y) == 2 * Xor(x / 2, y / 2) + if x % 2 != y % 2 then 1 else 0
  {
  }

  lemma XorCarries(u: nat, v: nat, w: nat, a: nat, b: nat)
    requires Xor(u + a / 2, v + b / 2) == w + Xor(a / 2, b / 2)
    ensures Xor(2 * u + a, 2 * v + b) == 2 * w + Xor(a, b)
  {
    hide Xor;
    XorDigits(2 * u + a, 2 * v + b);
    XorDigits(a, b);
  }

  lemma {:induction false} XorSplits(x: nat, y: nat, a: nat, b: nat, k: nat)
    requires a < Pow2(k) && b < Pow2(k)
    ensures Xor(Pow2(k) * x + a, Pow2(k) * y + b) == Pow2(k) * Xor(x, y) + Xor(a, b)
  {
    if k > 0 {
      hide Xor;
      XorSplits(x, y, a / 2, b / 2, k - 1);
      XorScales(Pow2(k), Pow2(k - 1), x, y, a, b, Xor(x, y));
    }
  }

  lemma XorScales(q: nat, p: nat, x: nat, y: nat, a: nat, b: nat, w: nat)
    requires q == 2 * p && Xor(p * x + a / 2, p * y + b / 2) == p * w + Xor(a / 2, b / 2)
    ensures Xor(q * x + a, q * y + b) == q * w + Xor(a, b)
  {
    hide Xor;
    XorCarries(p * x, p * y, p * w, a, b);
    Doubled(q, p, x);
    Doubled(q, p, y);
    Doubled(q, p, w);
  }

  lemma Doubled(q: nat, p: nat, x: nat)
    requires q == 2 * p
    ensures q * x == 2 * (p * x)
  {
  }

  function XorBytes(s: seq<Byte>, t: seq<Byte>): (r: seq<Byte>)
    requires |s| == |t|
    ensures |r| == |s|
  {
    seq(|s|, i requires 0 <= i < |s| => XorByte(s[i], t[i]))
  }

  function XorByte(a: Byte, b: Byte): Byte
  {
    Pow2Eight();
    XorBound(a, b, 8);
    Xor(a, b)
  }

  lemma Pow2Eight()
    ensures Pow2(8) == 0x100
  {
    assert Pow2(4) == 16;
  }

  lemma AppendByte(n: nat, e: Byte, width: nat)
    ensures BigEndian(0x100 * n + e, width + 1) == BigEndian(n, width) + [e]
  {
  }

  /** A big-endian word is xored byte by byte. */
  lemma {:induction false} WordXorIsBytewise(s: seq<Byte>, t: seq<Byte>)
    requires |s| == |t|
    ensures BigEndian(Xor(FromBigEndian(s), FromBigEndian(t)), |s|) == XorBytes(s, t)
  {
    if s != [] {
      var n := |s| - 1;
      Pow2Eight();
      XorSplits(FromBigEndian(s[..n]), FromBigEndian(t[..n]), s[n], t[n], 8);
      WordXorIsBytewise(s[..n], t[..n]);
      AppendByte(Xor(FromBigEndian(s[..n]), FromBigEndian(t[..n])), XorByte(s[n], t[n]), n);
      assert XorBytes(s, t) == XorBytes(s[..n], t[..n]) + [XorByte(s[n], t[n])];
      hide Xor, XorBytes, BigEndian;
    }
  }

  lemma XorBytesTwice(s: seq<Byte>, t: seq<Byte>)
    requires |s| == |t|
    ensures XorBytes(XorBytes(s, t), t) == s
  {
    forall i | 0 <= i < |s| ensures XorBytes(XorBytes(s, t), t)[i] == s[i] {
      XorTwice(s[i], t[i]);
    }
  }

  // ----- XOR-MAPPED-ADDRESS ---------------------------------------------------------------

  /** What addresses are xored with. */
  function Mask(txid: seq<Byte>): seq<Byte>
  {
    BigEndian(COOKIE, 4) + txid
  }

  predicate IsAddress(a: Addr)
  {
    (|a.host| == 4 || |a.host| == 16) && a.port != 0
  }

  function EncodeXor(a: Addr, txid: seq<Byte>): seq<Byte>
    requires |txid| == ID_LENGTH && IsAddress(a)
  {
    [0, if |a.host| == 4 then 1 else 2] + XorBytes(BigEndian(a.port, 2), Mask(txid)[..2])
    + XorBytes(a.host, Mask(txid)[..|a.host|])
  }

  function DecodeXor(v: seq<Byte>, txid: seq<Byte>): Option<Addr>
    requires |txid| == ID_LENGTH
  {
    if |v| < 4 || v[0] != 0 then None
    else
      var port := FromBigEndian(XorBytes(v[2..4], Mask(txid)[..2]));
      Limits();
      if port == 0 then None
      else if (v[1] == 1 && |v| == 8) || (v[1] == 2 && |v| == 20) then
        Some(Addr(XorBytes(v[4..], Mask(txid)[..|v| - 4]), port))
      else None
  }

  /** Decoding inverts encoding, and nothing else decodes. */
  lemma MappedAddressIsExact(v: seq<Byte>, txid: seq<Byte>, a: Addr)
    requires |txid| == ID_LENGTH
    ensures DecodeXor(v, txid) == Some(a) <==> IsAddress(a) && v == EncodeXor(a, txid)
  {
    Limits();
    if IsAddress(a) && v == EncodeXor(a, txid) {
      assert v[2..4] == XorBytes(BigEndian(a.port, 2), Mask(txid)[..2]);
      assert v[4..] == XorBytes(a.host, Mask(txid)[..|a.host|]);
      XorBytesTwice(BigEndian(a.port, 2), Mask(txid)[..2]);
      XorBytesTwice(a.host, Mask(txid)[..|a.host|]);
      DecodeEncoded(a.port, 2);
    }
    if DecodeXor(v, txid) == Some(a) {
      XorBytesTwice(v[2..4], Mask(txid)[..2]);
      XorBytesTwice(v[4..], Mask(txid)[..|v| - 4]);
      EncodeDecoded(XorBytes(v[2..4], Mask(txid)[..2]));
      assert v == [v[0], v[1]] + v[2..4] + v[4..];
    }
  }

  lemma AddressMask(v: seq<Byte>, txid: seq<Byte>)
    requires |v| == 8 && |txid| == ID_LENGTH
    ensures BigEndian(Xor(FromBigEndian(v[4..8]), COOKIE), 4) == XorBytes(v[4..], Mask(txid)[..4])
  {
    WordXorIsBytewise(v[4..8], BigEndian(COOKIE, 4));
    Limits();
    DecodeEncoded(COOKIE, 4);
    assert Mask(txid)[..4] == BigEndian(COOKIE, 4) && v[4..] == v[4..8];
  }

  /** The mask is the cookie followed by the transaction ID. */
  method IPv6Mask(txid: seq<Byte>) returns (mask: array<Byte>)
    requires |txid| == ID_LENGTH
    ensures fresh(mask) && mask.Length == 16 && mask[..] == Mask(txid)
  {
    hide BigEndian;
    mask := new Byte[16];
    PutBigEndian(mask, 0, COOKIE, 4);
    assert mask[..4] == BigEndian(COOKIE, 4);
    Copy(mask, 4, txid);
    assert mask[..] == Mask(txid);
  }

  method UnmaskIPv6(v: seq<Byte>, txid: seq<Byte>) returns (host: seq<Byte>)
    requires |v| == 20 && |txid| == ID_LENGTH
    ensures host == XorBytes(v[4..], Mask(txid)[..16])
  {
    hide XorByte, BigEndian;
    var mask := IPv6Mask(txid);
    ghost var m := mask[..];
    var ip := new Byte[16];
    for i := 0 to 16
      invariant mask[..] == m
      invariant forall k | 0 <= k < i :: ip[k] == XorByte(v[4 + k], m[k])
    {
      assert mask[i] == m[i];
      ip[i] := XorByte(v[4 + i], mask[i]);
    }
    host := ip[..];
  }

  method ParseXORMappedAddress(v: seq<Byte>, txid: seq<Byte>) returns (r: Option<Addr>)
    requires |txid| == ID_LENGTH
    ensures r == DecodeXor(v, txid)
  {
    if |v| < 4 || v[0] != 0 {
      return None;
    }
    var family := v[1];
    var port := Xor(FromBigEndian(v[2..4]), COOKIE / 0x1_0000);
    PortMask(v[2..4], txid);
    if port == 0 {
      return None;
    }
    if family == 1 {
      if |v| != 8 {
        return None;
      }
      AddressMask(v, txid);
      return Some(Addr(BigEndian(Xor(FromBigEndian(v[4..8]), COOKIE), 4), port));
    } else if family == 2 {
      if |v| != 20 {
        return None;
      }
      var ip := UnmaskIPv6(v, txid);
      return Some(Addr(ip, port));
    } else {
      return None;
    }
  }

  lemma PortMask(s: seq<Byte>, txid: seq<Byte>)
    requires |s| == 2 && |txid| == ID_LENGTH
    ensures Xor(FromBigEndian(s), COOKIE / 0x1_0000) == FromBigEndian(XorBytes(s, Mask(txid)[..2]))
    ensures Xor(FromBigEndian(s), COOKIE / 0x1_0000) < 0x1_0000
  {
    Limits();
    var m := BigEndian(COOKIE / 0x1_0000, 2);
    assert BigEndian(COOKIE, 4) == BigEndian(COOKIE / 0x100, 3) + [COOKIE % 0x100];
    assert BigEndian(COOKIE / 0x100, 3) == m + [COOKIE / 0x100 % 0x100];
    assert Mask(txid)[..2] == m;
    WordXorIsBytewise(s, m);
    DecodeEncoded(COOKIE / 0x1_0000, 2);
    Pow2Sixteen();
    XorBound(FromBigEndian(s), COOKIE / 0x1_0000, 16);
    DecodeEncoded(Xor(FromBigEndian(s), COOKIE / 0x1_0000), 2);
  }

  lemma Pow2Sixteen()
    ensures Pow2(16) == 0x1_0000
  {
    Pow2Eight();
    PowersMultiply(8, 8);
  }

  // ----- Attributes -----------------------------------------------------------------------

  datatype Attribute = Attribute(kind: U16, value: seq<Byte>, pad: seq<Byte>)

  function Padding(n: nat): nat
  {
    (4 - n % 4) % 4
  }

  predicate Fits(a: Attribute)
  {
    |a.value| < 0x1_0000 && |a.pad| == Padding(|a.value|)
  }

  function AttributeBytes(a: Attribute): seq<Byte>
  {
    BigEndian(a.kind, 2) + BigEndian(|a.value|, 2) + a.value + a.pad
  }

  function BodyBytes(list: seq<Attribute>): seq<Byte>
  {
    if list == [] then [] else AttributeBytes(list[0]) + BodyBytes(list[1..])
  }

  function Size(a: Attribute): nat
  {
    4 + |a.value| + |a.pad|
  }

  /** The attribute a body begins with, padding included. */
  function First(body: seq<Byte>): (first: Option<Attribute>)
    ensures first.Some? ==> 4 <= Size(first.value) <= |body|
  {
    if |body| < 4 then None
    else
      Limits();
      var n := FromBigEndian(body[2..4]);
      if 4 + n + Padding(n) > |body| then None
      else Some(Attribute(FromBigEndian(body[0..2]), body[4..4 + n], body[4 + n..4 + n + Padding(n)]))
  }

  /** Cuts a body into attributes, if it can be cut. */
  function Split(body: seq<Byte>): Option<seq<Attribute>>
    decreases |body|
  {
    if body == [] then Some([])
    else
      match First(body)
      case None => None
      case Some(a) => match Split(body[Size(a)..]) case None => None case Some(rest) => Some([a] + rest)
  }

  lemma FirstOfBytes(a: Attribute, rest: seq<Byte>)
    requires Fits(a)
    ensures var b := AttributeBytes(a) + rest;
            First(b) == Some(a) && b[Size(a)..] == rest && b != []
  {
    Limits();
    DecodeEncoded(a.kind, 2);
    DecodeEncoded(|a.value|, 2);
    hide BigEndian, FromBigEndian;
    var b := AttributeBytes(a) + rest;
    var n := |a.value|;
    assert b[0..2] == BigEndian(a.kind, 2) && b[2..4] == BigEndian(n, 2);
    assert b[4..4 + n] == a.value;
    assert b[4 + n..4 + n + Padding(n)] == a.pad && b[Size(a)..] == rest;
  }

  lemma FirstIsBytes(body: seq<Byte>)
    requires First(body).Some?
    ensures var a := First(body).value;
            Fits(a) && body == AttributeBytes(a) + body[Size(a)..]
  {
    Limits();
    var a := First(body).value;
    EncodeDecoded(body[0..2]);
    EncodeDecoded(body[2..4]);
    assert body == body[0..2] + body[2..4] + a.value + a.pad + body[Size(a)..];
  }

  lemma {:induction false} BodySplits(list: seq<Attribute>)
    requires forall a | a in list :: Fits(a)
    ensures Split(BodyBytes(list)) == Some(list)
  {
    hide First, AttributeBytes, Fits;
    if list != [] {
      BodySplits(list[1..]);
      FirstOfBytes(list[0], BodyBytes(list[1..]));
      assert [list[0]] + list[1..] == list;
    }
  }

  lemma {:induction false} SplitIsBody(body: seq<Byte>)
    requires Split(body).Some?
    ensures body == BodyBytes(Split(body).value)
    ensures forall a | a in Split(body).value :: Fits(a)
    decreases |body|
  {
    hide First, AttributeBytes, Fits;
    if body != [] {
      var a := First(body).value;
      FirstIsBytes(body);
      SplitIsBody(body[Size(a)..]);
      assert Split(body).value[1..] == Split(body[Size(a)..]).value;
    }
  }

  /** The values of the mapped-address attributes. */
  function Addresses(list: seq<Attribute>): seq<seq<Byte>>
  {
    if list == [] then []
    else
      Addresses(list[..|list| - 1])
      + if list[|list| - 1].kind == XOR_MAPPED_ADDRESS then [list[|list| - 1].value] else []
  }

  lemma {:induction false} AddressesOf(a: seq<Attribute>, b: seq<Attribute>)
    ensures Addresses(a + b) == Addresses(a) + Addresses(b)
  {
    if b == [] {
      assert a + b == a;
    } else {
      AddressesOf(a, b[..|b| - 1]);
      assert (a + b)[..|a + b| - 1] == a + b[..|b| - 1];
    }
  }

  // ----- Responses ------------------------------------------------------------------------

  datatype StunError =
    | TooShort | NotAResponse | WrongTransaction | WrongLength
    | TruncatedAttribute | Overrun | DuplicateAddress | BadAddress | NoAddress

  function Header(n: nat, txid: seq<Byte>): seq<Byte>
  {
    BigEndian(BINDING_RESPONSE, 2) + BigEndian(n, 2) + BigEndian(COOKIE, 4) + txid
  }

  /** data is a binding response with these padded attributes and nothing else. */
  predicate IsMessage(data: seq<Byte>, txid: seq<Byte>, list: seq<Attribute>)
  {
    && |txid| == ID_LENGTH && (forall a | a in list :: Fits(a)) && |BodyBytes(list)| < 0x1_0000
    && data == Header(|BodyBytes(list)|, txid) + BodyBytes(list)
  }

  /** data is a binding response whose one mapped address is a. */
  ghost predicate Reflects(data: seq<Byte>, txid: seq<Byte>, a: Addr)
  {
    exists list :: IsMessage(data, txid, list) && IsAddress(a) && Addresses(list) == [EncodeXor(a, txid)]
  }

  /** The header test of the classifier and the exact length. */
  predicate IsBindingResponseShape(data: seq<Byte>)
  {
    && |data| >= HEADER && FromBigEndian(data[4..8]) == COOKIE
    && FromBigEndian(data[0..2]) < 0x4000 && FromBigEndian(data[0..2]) == BINDING_RESPONSE
    && FromBigEndian(data[2..4]) == |data| - HEADER
  }

  lemma HeaderFields(n: nat, txid: seq<Byte>, body: seq<Byte>)
    requires |txid| == ID_LENGTH && n < 0x1_0000 && n == |body|
    ensures var data := Header(n, txid) + body;
            IsBindingResponseShape(data) && data[8..20] == txid && data[20..] == body
  {
    Limits();
    DecodeEncoded(BINDING_RESPONSE, 2);
    DecodeEncoded(n, 2);
    DecodeEncoded(COOKIE, 4);
    hide BigEndian, FromBigEndian;
    var data := Header(n, txid) + body;
    assert data[0..2] == BigEndian(BINDING_RESPONSE, 2) && data[2..4] == BigEndian(n, 2);
    assert data[4..8] == BigEndian(COOKIE, 4);
  }

  lemma ShapeIsHeader(data: seq<Byte>)
    requires IsBindingResponseShape(data)
    ensures HEADER <= |data| < HEADER + 0x1_0000 && data == Header(|data| - HEADER, data[8..20]) + data[20..]
  {
    Limits();
    EncodeDecoded(data[0..2]);
    EncodeDecoded(data[2..4]);
    EncodeDecoded(data[4..8]);
    assert data == data[0..2] + data[2..4] + data[4..8] + data[8..20] + data[20..];
  }

  lemma MessageSplits(data: seq<Byte>, txid: seq<Byte>, list: seq<Attribute>)
    ensures IsMessage(data, txid, list)
            <==> IsBindingResponseShape(data) && txid == data[8..20] && Split(data[20..]) == Some(list)
  {
    hide Header;
    if IsMessage(data, txid, list) {
      HeaderFields(|BodyBytes(list)|, txid, BodyBytes(list));
      BodySplits(list);
    }
    if IsBindingResponseShape(data) {
      ShapeIsHeader(data);
      if txid == data[8..20] && Split(data[20..]) == Some(list) {
        SplitIsBody(data[20..]);
      }
    }
  }

  /** What a response reflects, found by cutting it up. */
  lemma ReflectsWhen(data: seq<Byte>, txid: seq<Byte>, a: Addr)
    requires |txid| == ID_LENGTH
    ensures Reflects(data, txid, a)
            <==> && IsBindingResponseShape(data) && txid == data[8..20]
                 && Split(data[20..]).Some? && OneAddress(Split(data[20..]).value, txid, a)
  {
    hide IsMessage, DecodeXor, EncodeXor, IsAddress;
    if Reflects(data, txid, a) {
      var list :| IsMessage(data, txid, list) && IsAddress(a) && Addresses(list) == [EncodeXor(a, txid)];
      MessageSplits(data, txid, list);
      MappedAddressIsExact(Addresses(list)[0], txid, a);
    }
    if IsBindingResponseShape(data) {
      ShapeIsHeader(data);
    }
    if IsBindingResponseShape(data) && txid == data[8..20] && Split(data[20..]).Some?
       && OneAddress(Split(data[20..]).value, txid, a) {
      var list := Split(data[20..]).value;
      MessageSplits(data, txid, list);
      MappedAddressIsExact(Addresses(list)[0], txid, a);
      assert Addresses(list) == [EncodeXor(a, txid)];
    }
  }

  // ----- On the wire ------------------------------------------------------------------------

  lemma Numbers()
    ensures BigEndian(BINDING_RESPONSE, 2) == [1, 1] && BigEndian(XOR_MAPPED_ADDRESS, 2) == [0, 0x20]
    ensures BigEndian(COOKIE, 4) == [0x21, 0x12, 0xA4, 0x42]
    ensures BigEndian(8, 2) == [0, 8] && BigEndian(20, 2) == [0, 20]
    ensures BigEndian(12, 2) == [0, 12] && BigEndian(24, 2) == [0, 24]
  {
    assert BigEndian(0x2112_A4, 3) == BigEndian(0x2112, 2) + [0xA4];
    assert BigEndian(0x2112, 2) == [0x21, 0x12];
  }

  /** At an offset of the datagram: an XOR-MAPPED-ADDRESS attribute of a, masked with the cookie and
      the transaction ID. */
  predicate AddressAt(data: seq<Byte>, txid: seq<Byte>, a: Addr, o: nat)
    requires |txid| == 12
  {
    var n := |a.host|;
    && (n == 4 || n == 16) && 20 <= o && o + 8 + n <= |data|
    && data[o..o + 6] == [0, 0x20, 0, 4 + n, 0, if n == 4 then 1 else 2]
    && a.port != 0 && data[o + 6..o + 8] == XorBytes(BigEndian(a.port, 2), [0x21, 0x12])
    && data[o + 8..o + 8 + n] == XorBytes(a.host, ([0x21, 0x12, 0xA4, 0x42] + txid)[..n])
  }

  /** A reflected address is written in the datagram, which is a binding success response of that
      transaction with its exact length. */
  lemma ReflectedIsWritten(data: seq<Byte>, txid: seq<Byte>, a: Addr) returns (o: nat)
    requires |txid| == 12 && Reflects(data, txid, a)
    ensures |data| >= 20 && data[..2] == [1, 1] && data[4..8] == [0x21, 0x12, 0xA4, 0x42] && data[8..20] == txid
    ensures FromBigEndian(data[2..4]) == |data| - 20
    ensures AddressAt(data, txid, a, o)
  {
    hide BigEndian, FromBigEndian, XorBytes, AttributeBytes, BodyBytes, Addresses;
    Numbers();
    var list :| IsMessage(data, txid, list) && IsAddress(a) && Addresses(list) == [EncodeXor(a, txid)];
    var body := BodyBytes(list);
    HeaderFields(|body|, txid, body);
    assert data[..2] == data[0..2] == BigEndian(BINDING_RESPONSE, 2) && data[4..8] == BigEndian(COOKIE, 4);
    var i := AddressIn(list);
    BodyAround(list, i);
    o := 20 + |BodyBytes(list[..i])|;
    assert data == (Header(|body|, txid) + BodyBytes(list[..i])) + (AttributeBytes(list[i]) + BodyBytes(list[i + 1..]));
    WrittenAt(data, Header(|body|, txid) + BodyBytes(list[..i]), list[i], BodyBytes(list[i + 1..]), txid, a);
  }

  lemma WrittenAt(data: seq<Byte>, before: seq<Byte>, at: Attribute, after: seq<Byte>, txid: seq<Byte>, a: Addr)
    requires |txid| == 12 && IsAddress(a) && Fits(at) && |before| >= 20
    requires data == before + (AttributeBytes(at) + after)
    requires at.kind == XOR_MAPPED_ADDRESS && at.value == EncodeXor(a, txid)
    ensures AddressAt(data, txid, a, |before|)
  {
    Numbers();
    hide BigEndian, XorBytes;
    var o, n := |before|, |a.host|;
    assert |at.value| == 4 + n;
    assert data[o..o + 2] == [0, 0x20] && data[o + 2..o + 4] == [0, 4 + n] && data[o + 4..o + 8 + n] == at.value;
    assert Mask(txid)[..2] == [0x21, 0x12];
    assert data[o + 6..o + 8] == at.value[2..4] && data[o + 8..o + 8 + n] == at.value[4..];
    assert data[o..o + 6] == data[o..o + 2] + data[o + 2..o + 4] + at.value[..2];
  }

  lemma {:induction false} AddressIn(list: seq<Attribute>) returns (i: nat)
    requires |Addresses(list)| == 1
    ensures i < |list| && list[i].kind == XOR_MAPPED_ADDRESS && list[i].value == Addresses(list)[0]
  {
    if list[|list| - 1].kind == XOR_MAPPED_ADDRESS {
      i := |list| - 1;
    } else {
      i := AddressIn(list[..|list| - 1]);
    }
  }

  lemma {:induction false} BodyAround(list: seq<Attribute>, i: nat)
    requires i < |list|
    ensures BodyBytes(list) == BodyBytes(list[..i]) + (AttributeBytes(list[i]) + BodyBytes(list[i + 1..]))
  {
    hide AttributeBytes;
    if i > 0 {
      BodyAround(list[1..], i - 1);
      assert list[..i][1..] == list[1..][..i - 1] && list[1..][i..] == list[i + 1..];
    }
  }

  /** And a response that is just a header and such an attribute reflects its address. */
  lemma WrittenIsReflected(data: seq<Byte>, txid: seq<Byte>, a: Addr)
    requires |txid| == 12 && |data| == 28 + |a.host| && AddressAt(data, txid, a, 20)
    requires data[..8] == [1, 1, 0, 8 + |a.host|, 0x21, 0x12, 0xA4, 0x42] && data[8..20] == txid
    ensures Reflects(data, txid, a)
  {
    Numbers();
    hide BigEndian, XorBytes, AttributeBytes, Fits;
    var n := |a.host|;
    var at := Attribute(XOR_MAPPED_ADDRESS, EncodeXor(a, txid), []);
    WrittenAttribute(data[20..], at, txid, a);
    assert BodyBytes([at]) == AttributeBytes(at) + BodyBytes([]);
    assert data == data[..8] + data[8..20] + data[20..];
    assert data == Header(8 + n, txid) + BodyBytes([at]);
    assert IsMessage(data, txid, [at]);
    assert Addresses([at][..0]) == [];
    assert Addresses([at]) == [EncodeXor(a, txid)];
  }

  lemma WrittenAttribute(body: seq<Byte>, at: Attribute, txid: seq<Byte>, a: Addr)
    requires |txid| == 12 && IsAddress(a) && |body| == 8 + |a.host|
    requires body[..6] == [0, 0x20, 0, 4 + |a.host|, 0, if |a.host| == 4 then 1 else 2]
    requires body[6..8] == XorBytes(BigEndian(a.port, 2), [0x21, 0x12])
    requires body[8..] == XorBytes(a.host, ([0x21, 0x12, 0xA4, 0x42] + txid)[..|a.host|])
    requires at == Attribute(XOR_MAPPED_ADDRESS, EncodeXor(a, txid), [])
    ensures Fits(at) && body == AttributeBytes(at)
  {
    Numbers();
    hide BigEndian, XorBytes;
    assert Mask(txid)[..2] == [0x21, 0x12];
    assert body == body[..6] + body[6..8] + body[8..];
  }

  /** Also after another attribute, padded to a multiple of four bytes. */
  lemma WrittenAfterOther(data: seq<Byte>, txid: seq<Byte>, a: Addr, kind: U16, value: seq<Byte>, pad: seq<Byte>,
                          tail: seq<Byte>)
    requires |txid| == 12 && IsAddress(a) && kind != 0x20 && |pad| < 4 && (|value| + |pad|) % 4 == 0
    requires |value| + |pad| + 36 < 0x1_0000 && |tail| == 8 + |a.host|
    requires tail[..6] == [0, 0x20, 0, 4 + |a.host|, 0, if |a.host| == 4 then 1 else 2]
    requires tail[6..8] == XorBytes(BigEndian(a.port, 2), [0x21, 0x12])
    requires tail[8..] == XorBytes(a.host, ([0x21, 0x12, 0xA4, 0x42] + txid)[..|a.host|])
    requires var body := BigEndian(kind, 2) + BigEndian(|value|, 2) + value + pad + tail;
             data == [1, 1] + BigEndian(|body|, 2) + [0x21, 0x12, 0xA4, 0x42] + txid + body
    ensures Reflects(data, txid, a)
  {
    Numbers();
    hide BigEndian, XorBytes, AttributeBytes;
    var other := Attribute(kind, value, pad);
    var at := Attribute(XOR_MAPPED_ADDRESS, EncodeXor(a, txid), []);
    WrittenAttribute(tail, at, txid, a);
    OtherAttribute(other);
    var list := [other, at];
    assert BodyBytes([at]) == AttributeBytes(at) + BodyBytes([]);
    assert list[1..] == [at];
    assert BodyBytes(list) == AttributeBytes(other) + tail;
    assert data == Header(|BodyBytes(list)|, txid) + BodyBytes(list);
    assert IsMessage(data, txid, list);
    OneMore([], other);
    OneMore([other], at);
    assert list == [other] + [at] && [] + [other] == [other];
    assert Addresses(list) == [EncodeXor(a, txid)];
  }

  lemma OtherAttribute(a: Attribute)
    requires |a.pad| < 4 && (|a.value| + |a.pad|) % 4 == 0 && |a.value| < 0x1_0000
    ensures Fits(a) && AttributeBytes(a) == BigEndian(a.kind, 2) + BigEndian(|a.value|, 2) + a.value + a.pad
  {
  }

  /** Two mapped addresses in one message reflect nothing. */
  lemma DuplicateReflectsNothing(data: seq<Byte>, txid: seq<Byte>, list: seq<Attribute>, i: nat, j: nat, a: Addr)
    requires IsMessage(data, txid, list) && i < j < |list|
    requires list[i].kind == 0x20 && list[j].kind == 0x20
    ensures !Reflects(data, txid, a)
  {
    hide IsMessage, EncodeXor, DecodeXor;
    MessageSplits(data, txid, list);
    assert list == (list[..i] + [list[i]]) + (list[i + 1..j] + [list[j]] + list[j + 1..]);
    AddressesOf(list[..i] + [list[i]], list[i + 1..j] + [list[j]] + list[j + 1..]);
    AddressesOf(list[i + 1..j] + [list[j]], list[j + 1..]);
    OneMore(list[..i], list[i]);
    OneMore(list[i + 1..j], list[j]);
    assert |Addresses(list)| >= 2;
    if Reflects(data, txid, a) {
      var other :| IsMessage(data, txid, other) && IsAddress(a) && Addresses(other) == [EncodeXor(a, txid)];
      MessageSplits(data, txid, other);
    }
  }

  /** Accepts exactly the well-formed responses of the expected transaction. */
  method ParseBindingResponse(data: seq<Byte>, expected: Option<seq<Byte>>) returns (r: Result<Addr, StunError>)
    ensures forall a: Addr :: r == Ok(a)
              <==> |data| >= HEADER && (expected.None? || expected.value == data[8..20])
                   && Reflects(data, data[8..20], a)
  {
    if |data| < HEADER {
      return Err(TooShort);
    }
    var txid := data[8..20];
    forall a: Addr
      ensures Reflects(data, txid, a)
              <==> IsBindingResponseShape(data) && Split(data[20..]).Some?
                   && OneAddress(Split(data[20..]).value, txid, a)
    {
      ReflectsWhen(data, txid, a);
    }
    if FromBigEndian(data[4..8]) != COOKIE || FromBigEndian(data[0..2]) >= 0x4000
       || FromBigEndian(data[2..4]) > |data| - HEADER || FromBigEndian(data[0..2]) != BINDING_RESPONSE {
      return Err(NotAResponse);
    }
    if expected.Some? && txid != expected.value {
      return Err(WrongTransaction);
    }
    var end := HEADER + FromBigEndian(data[2..4]);
    if end != |data| {
      return Err(WrongLength);
    }
    r := ParseAttributes(data, txid);
  }

  function Joined(passed: seq<Attribute>, rest: Option<seq<Attribute>>): Option<seq<Attribute>>
  {
    if rest.Some? then Some(passed + rest.value) else None
  }

  /** One well-formed mapped address among the attributes. */
  predicate OneAddress(list: seq<Attribute>, txid: seq<Byte>, a: Addr)
    requires |txid| == ID_LENGTH
  {
    |Addresses(list)| == 1 && DecodeXor(Addresses(list)[0], txid) == Some(a)
  }

  /** The first attribute at an offset, in the loop's terms. */
  lemma FirstAt(data: seq<Byte>, offset: nat)
    requires offset < |data|
    ensures var n := if |data| - offset < 4 then 0 else FromBigEndian(data[offset + 2..offset + 4]);
            var val, padded := offset + 4, n + Padding(n);
            First(data[offset..])
            == if |data| - offset < 4 || val + padded > |data| then None
               else (Limits();
                     Some(Attribute(FromBigEndian(data[offset..offset + 2]), data[val..val + n],
                                    data[val + n..val + padded])))
  {
    if |data| - offset >= 4 {
      var body := data[offset..];
      assert body[0..2] == data[offset..offset + 2] && body[2..4] == data[offset + 2..offset + 4];
      var n := FromBigEndian(data[offset + 2..offset + 4]);
      if 4 + n + Padding(n) <= |body| {
        assert body[4..4 + n] == data[offset + 4..offset + 4 + n];
        assert body[4 + n..4 + n + Padding(n)] == data[offset + 4 + n..offset + 4 + n + Padding(n)];
      }
    }
  }

  /** Passing the first attribute at an offset. */
  lemma SplitStep(data: seq<Byte>, offset: nat, passed: seq<Attribute>)
    requires offset < |data|
    ensures First(data[offset..]).None? ==> Split(data[offset..]).None?
    ensures First(data[offset..]).Some? ==>
              var a := First(data[offset..]).value;
              Joined(passed, Split(data[offset..])) == Joined(passed + [a], Split(data[offset + Size(a)..]))
  {
    hide First;
    if First(data[offset..]).Some? {
      var a := First(data[offset..]).value;
      assert data[offset..][Size(a)..] == data[offset + Size(a)..];
      var rest := Split(data[offset + Size(a)..]);
      if rest.Some? {
        assert passed + ([a] + rest.value) == passed + [a] + rest.value;
      }
    }
  }

  lemma OneMore(passed: seq<Attribute>, a: Attribute)
    ensures Addresses(passed + [a]) == Addresses(passed) + if a.kind == XOR_MAPPED_ADDRESS then [a.value] else []
  {
    assert (passed + [a])[..|passed|] == passed;
  }

  lemma JoinedAddresses(passed: seq<Attribute>, rest: Option<seq<Attribute>>)
    ensures Joined(passed, rest).Some? ==>
              rest.Some? && Addresses(Joined(passed, rest).value) == Addresses(passed) + Addresses(rest.value)
  {
    if rest.Some? {
      AddressesOf(passed, rest.value);
    }
  }

  method ParseAttributes(data: seq<Byte>, txid: seq<Byte>) returns (r: Result<Addr, StunError>)
    requires |data| >= HEADER && |txid| == ID_LENGTH
    ensures forall a: Addr :: r == Ok(a) <==> Split(data[20..]).Some? && OneAddress(Split(data[20..]).value, txid, a)
    ensures r == Err(NoAddress) <==> Split(data[20..]).Some? && Addresses(Split(data[20..]).value) == []
  {
    hide First, Split, Addresses, DecodeXor;
    var reflected: Option<Addr> := None;
    var offset, end := HEADER, |data|;
    ghost var passed: seq<Attribute> := [];
    StartsSplit(data, txid);
    while offset < end
      invariant HEADER <= offset <= end
      invariant Split(data[20..]) == Joined(passed, Split(data[offset..]))
      invariant reflected.None? ==> Addresses(passed) == []
      invariant reflected.Some? ==> OneAddress(passed, txid, reflected.value)
    {
      FirstAt(data, offset);
      SplitStep(data, offset, passed);
      if end - offset < 4 {
        return Err(TruncatedAttribute);
      }
      var kind := FromBigEndian(data[offset..offset + 2]);
      var n := FromBigEndian(data[offset + 2..offset + 4]);
      var val := offset + 4;
      if val + n > end {
        return Err(Overrun);
      }
      var padded := n + (4 - n % 4) % 4;
      if val + padded > end {
        return Err(Overrun);
      }
      ghost var first := First(data[offset..]).value;
      OneMore(passed, first);
      JoinedAddresses(passed + [first], Split(data[val + padded..]));
      if kind == XOR_MAPPED_ADDRESS {
        if reflected.Some? {
          return Err(DuplicateAddress);
        }
        var parsed := ParseXORMappedAddress(data[val..val + n], txid);
        if parsed.None? {
          return Err(BadAddress);
        }
        reflected := parsed;
      }
      passed := passed + [first];
      offset := val + padded;
    }
    EndsSplit(data, passed);
    if reflected.None? {
      return Err(NoAddress);
    }
    return Ok(reflected.value);
  }

  lemma StartsSplit(data: seq<Byte>, txid: seq<Byte>)
    requires |data| >= HEADER
    ensures Addresses([]) == [] && Split(data[20..]) == Joined([], Split(data[HEADER..]))
  {
    if Split(data[20..]).Some? {
      assert [] + Split(data[20..]).value == Split(data[20..]).value;
    }
  }

  lemma EndsSplit(data: seq<Byte>, passed: seq<Attribute>)
    ensures Joined(passed, Split(data[|data|..])) == Some(passed)
  {
    assert data[|data|..] == [] && passed + [] == passed;
  }
}
