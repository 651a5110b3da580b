/** The STUN client: the binding request, and the walk over a response's attributes. */
module StunClient {
  import opened Wrappers
  import opened Bytes

  const MAGIC_COOKIE: nat := 0x2112A442
  const BINDING_REQUEST: nat := 0x0001
  const BINDING_RESPONSE: nat := 0x0101
  const XOR_MAPPED_ADDRESS: nat := 0x0020
  const MAPPED_ADDRESS: nat := 0x0001

  const HEADER: nat := 20
  const COOKIE_BYTES: seq<Byte> := [0x21, 0x12, 0xA4, 0x42]

  type Transaction = id: seq<Byte> | |id| == 12 witness seq(12, _ => 0)

  datatype Address = Address(ip: seq<Byte>, port: nat)

  datatype StunError = TooShort | UnexpectedType(kind: nat) | CookieMismatch | TransactionMismatch | NoMappedAddress

  // ---------------------------------------------------------------- numbers

  function U16(data: seq<Byte>, i: nat): (n: nat)
    requires i + 2 <= |data|
    ensures n < 0x1_0000
  {
    data[i] as int * 256 + data[i + 1]
  }

  function U32(data: seq<Byte>, i: nat): nat
    requires i + 4 <= |data|
  {
    U16(data, i) * 0x1_0000 + U16(data, i + 2)
  }

  /** `u16::to_be_bytes` */
  function BE16(n: nat): (s: seq<Byte>)
    requires n < 0x1_0000
    ensures |s| == 2 && U16(s, 0) == n
  {
    [n / 256, n % 256]
  }

  function Pow2(bits: nat): (p: nat)
    ensures p > 0
  {
    if bits == 0 then 1 else 2 * Pow2(bits - 1)
  }

  /** The exclusive or of the low `bits` bits. */
  function Xor(bits: nat, a: nat, b: nat): (r: nat)
    ensures r < Pow2(bits)
  {
    if bits == 0 then 0
    else 2 * Xor(bits - 1, a / 2, b / 2) + (if a % 2 == b % 2 then 0 else 1)
  }

  lemma {:induction false} XorUndoesItself(bits: nat, a: nat, b: nat)
    requires a < Pow2(bits)
    ensures Xor(bits, Xor(bits, a, b), b) == a
  {
    if bits > 0 {
      var r := Xor(bits, a, b);
      assert r / 2 == Xor(bits - 1, a / 2, b / 2);
      assert r % 2 == if a % 2 == b % 2 then 0 else 1;
      XorUndoesItself(bits - 1, a / 2, b / 2);
    }
  }

  /** Bit `k` of a number. */
  predicate Bit(n: nat, k: nat)
  {
    if k == 0 then n % 2 == 1 else Bit(n / 2, k - 1)
  }

  /** Of the low `bits` bits, those of the result are the ones set in exactly one argument. */
  lemma {:induction false} XorTakesExactlyOne(bits: nat, a: nat, b: nat, k: nat)
    requires k < bits
    ensures Bit(Xor(bits, a, b), k) <==> Bit(a, k) != Bit(b, k)
  {
    assert Xor(bits, a, b) / 2 == Xor(bits - 1, a / 2, b / 2);
    if k > 0 { XorTakesExactlyOne(bits - 1, a / 2, b / 2, k - 1); }
  }

  /** The bits of a number are all there is to it. */
  lemma {:induction false} BitsDecide(bits: nat, a: nat, b: nat)
    requires a < Pow2(bits) && b < Pow2(bits) && forall k: nat :: k < bits ==> Bit(a, k) == Bit(b, k)
    ensures a == b
  {
    if bits > 0 {
      assert Bit(a, 0) == Bit(b, 0);
      forall k: nat | k < bits - 1 ensures Bit(a / 2, k) == Bit(b / 2, k) { assert Bit(a, k + 1) == Bit(b, k + 1); }
      BitsDecide(bits - 1, a / 2, b / 2);
    }
  }

  lemma PowersOfTwo()
    ensures Pow2(8) == 256 && Pow2(16) == 0x1_0000
  {
    assert Pow2(4) == 16;
    assert Pow2(8) == 16 * Pow2(4);
    assert Pow2(12) == 16 * Pow2(8);
    assert Pow2(16) == 16 * Pow2(12);
  }

  function XorByte(a: Byte, b: Byte): Byte
  {
    PowersOfTwo();
    Xor(8, a, b)
  }

  function XorPort(port: nat): (r: nat)
    ensures r < 0x1_0000
  {
    PowersOfTwo();
    Xor(16, port, U16(COOKIE_BYTES, 0))
  }

  // ---------------------------------------------------------------- attribute values

  /** A value whose address the client reads: long enough, and of the IPv4 family. */
  predicate HoldsIPv4(value: seq<Byte>)
  {
    |value| >= 8 && value[1] == 0x01
  }

  function XorIp(bytes: seq<Byte>): (ip: seq<Byte>)
    requires |bytes| == 4
    ensures |ip| == 4
  {
    seq(4, i requires 0 <= i < 4 => XorByte(bytes[i], COOKIE_BYTES[i]))
  }

  function XorMapped(value: seq<Byte>): Option<Address>
  {
    if HoldsIPv4(value) then Some(Address(XorIp(value[4..8]), XorPort(U16(value, 2)))) else None
  }

  function Mapped(value: seq<Byte>): Option<Address>
  {
    if HoldsIPv4(value) then Some(Address(value[4..8], U16(value, 2))) else None
  }

  /** The loop's other arm, which would take its byte from the transaction id, is for the fifth
      byte on and is never taken. */
  method ParseXorMappedAddress(value: seq<Byte>) returns (address: Option<Address>)
    ensures address == XorMapped(value)
  {
    if |value| < 8 || value[1] != 0x01 { return None; }
    var xport := U16(value, 2);
    var port := XorPort(xport);
    var addrBytes: seq<Byte> := [0, 0, 0, 0];
    for i := 0 to 4
      invariant |addrBytes| == 4
      invariant forall k :: 0 <= k < i ==> addrBytes[k] == XorByte(value[4 + k], COOKIE_BYTES[k])
    {
      addrBytes := addrBytes[i := XorByte(value[4 + i], COOKIE_BYTES[i])];
    }
    assert addrBytes == XorIp(value[4..8]);
    address := Some(Address(addrBytes, port));
  }

  /** Each bit of the port and the address that come out is the one in the value, turned over
      where the magic cookie has a 1: the port with the cookie's upper half, the address with all
      of it. */
  lemma XorMappedBits(value: seq<Byte>)
    requires HoldsIPv4(value)
    ensures XorMapped(value).Some?
    ensures var address := XorMapped(value).value;
            && |address.ip| == 4 && address.port < 0x1_0000
            && (forall k: nat :: k < 16 ==>
                  (Bit(address.port, k) <==> Bit(value[2] as int * 256 + value[3], k) != Bit(0x2112, k)))
            && (forall i, k: nat :: 0 <= i < 4 && k < 8 ==>
                  (Bit(address.ip[i], k) <==> Bit(value[4 + i], k) != Bit([0x21, 0x12, 0xA4, 0x42][i], k)))
  {
    var address := XorMapped(value).value;
    forall k: nat | k < 16
      ensures Bit(address.port, k) <==> Bit(value[2] as int * 256 + value[3], k) != Bit(0x2112, k)
    {
      XorTakesExactlyOne(16, U16(value, 2), U16(COOKIE_BYTES, 0), k);
    }
    forall i, k: nat | 0 <= i < 4 && k < 8
      ensures Bit(address.ip[i], k) <==> Bit(value[4 + i], k) != Bit([0x21, 0x12, 0xA4, 0x42][i], k)
    {
      XorTakesExactlyOne(8, value[4 + i], COOKIE_BYTES[i], k);
    }
  }

  lemma SamplePort()
    ensures Xor(16, 0xA147, 0x2112) == 0x8055
  {
    assert Xor(4, 0xA, 0x2) == 0x8;
    assert Xor(8, 0xA1, 0x21) == 0x80;
    assert Xor(12, 0xA14, 0x211) == 0x805;
  }

  lemma SampleBytes()
    ensures Xor(8, 0xE1, 0x21) == 192 && Xor(8, 0x12, 0x12) == 0 && Xor(8, 0xA6, 0xA4) == 2 && Xor(8, 0x43, 0x42) == 1
  {
    assert Xor(4, 0xE, 0x2) == 0xC && Xor(4, 0x1, 0x1) == 0 && Xor(4, 0xA, 0xA) == 0 && Xor(4, 0x4, 0x4) == 0;
  }

  /** The sample response of section 2.2 of RFC 5769: 192.0.2.1, port 32853. */
  lemma SampleResponseAddress()
    ensures XorMapped([0x00, 0x01, 0xA1, 0x47, 0xE1, 0x12, 0xA6, 0x43]) == Some(Address([192, 0, 2, 1], 32853))
  {
    SamplePort();
    SampleBytes();
    hide Xor;
    var value: seq<Byte> := [0x00, 0x01, 0xA1, 0x47, 0xE1, 0x12, 0xA6, 0x43];
    assert value[4..8] == [0xE1, 0x12, 0xA6, 0x43];
    assert U16(value, 2) == 0xA147 && U16(COOKIE_BYTES, 0) == 0x2112;
    assert XorIp(value[4..8]) == [192, 0, 2, 1];
  }

  /** An attribute value as a server writes it for `address`, with any first byte and any
      bytes behind the address. */
  function XorMappedValue(first: Byte, address: Address, more: seq<Byte>): seq<Byte>
    requires |address.ip| == 4
  {
    [first, 0x01] + BE16(XorPort(address.port)) + XorIp(address.ip) + more
  }

  function MappedValue(first: Byte, address: Address, more: seq<Byte>): seq<Byte>
    requires address.port < 0x1_0000
  {
    [first, 0x01] + BE16(address.port) + address.ip + more
  }

  lemma XorIpUndoesItself(ip: seq<Byte>)
    requires |ip| == 4
    ensures XorIp(XorIp(ip)) == ip
  {
    PowersOfTwo();
    forall i | 0 <= i < 4 ensures XorIp(XorIp(ip))[i] == ip[i] {
      XorUndoesItself(8, ip[i], COOKIE_BYTES[i]);
    }
  }

  /** Every port and address comes out of both kinds of value as it went in. */
  lemma {:induction false} AddressRoundTrips(first: Byte, address: Address, more: seq<Byte>)
    requires |address.ip| == 4 && address.port < 0x1_0000
    ensures XorMapped(XorMappedValue(first, address, more)) == Some(address)
    ensures Mapped(MappedValue(first, address, more)) == Some(address)
  {
    var xored, plain := XorMappedValue(first, address, more), MappedValue(first, address, more);
    assert xored[4..8] == XorIp(address.ip) && plain[4..8] == address.ip;
    assert U16(xored, 2) == XorPort(address.port);
    XorIpUndoesItself(address.ip);
    PowersOfTwo();
    XorUndoesItself(16, address.port, U16(COOKIE_BYTES, 0));
  }

  // ---------------------------------------------------------------- the attribute list

  datatype Attribute = Attribute(kind: nat, value: seq<Byte>)

  /** `n.div_ceil(4) * 4` */
  function Padded(n: nat): (p: nat)
    ensures n <= p < n + 4 && p % 4 == 0
  {
    (n + 3) / 4 * 4
  }

  function AttributeAt(data: seq<Byte>, offset: nat): Option<Attribute>
  {
    if offset + 4 > |data| || offset + 4 + U16(data, offset + 2) > |data| then None
    else Some(Attribute(U16(data, offset), data[offset + 4..offset + 4 + U16(data, offset + 2)]))
  }

  /** The attributes from `offset` on: those whose header starts in time for `end`, up to the
      first whose value leaves the buffer. */
  function Attributes(data: seq<Byte>, offset: nat, end: nat): seq<Attribute>
    decreases end - offset
  {
    if offset + 4 > end then []
    else
      match AttributeAt(data, offset)
      case None => []
      case Some(a) => [a] + Attributes(data, offset + 4 + Padded(|a.value|), end)
  }

  function Read(a: Attribute, kind: nat): Option<Address>
  {
    if a.kind != kind then None
    else if kind == XOR_MAPPED_ADDRESS then XorMapped(a.value)
    else Mapped(a.value)
  }

  function LastAddress(attributes: seq<Attribute>, kind: nat): Option<Address>
  {
    if attributes == [] then None
    else
      var init, last := attributes[..|attributes| - 1], attributes[|attributes| - 1];
      if Read(last, kind).Some? then Read(last, kind) else LastAddress(init, kind)
  }

  function Reported(attributes: seq<Attribute>): Result<Address, StunError>
  {
    if LastAddress(attributes, XOR_MAPPED_ADDRESS).Some? then Ok(LastAddress(attributes, XOR_MAPPED_ADDRESS).value)
    else if LastAddress(attributes, MAPPED_ADDRESS).Some? then Ok(LastAddress(attributes, MAPPED_ADDRESS).value)
    else Err(NoMappedAddress)
  }

  function AttributesEnd(data: seq<Byte>): (end: nat)
    requires |data| >= HEADER
    ensures end <= |data|
  {
    if HEADER + U16(data, 2) < |data| then HEADER + U16(data, 2) else |data|
  }

  function Response(data: seq<Byte>, tid: Transaction): Result<Address, StunError>
  {
    if |data| < HEADER then Err(TooShort)
    else if U16(data, 0) != BINDING_RESPONSE then Err(UnexpectedType(U16(data, 0)))
    else if U32(data, 4) != MAGIC_COOKIE then Err(CookieMismatch)
    else if data[8..20] != tid then Err(TransactionMismatch)
    else Reported(Attributes(data, HEADER, AttributesEnd(data)))
  }

  lemma OneMore(data: seq<Byte>, offset: nat, end: nat, walked: seq<Attribute>, a: Attribute)
    requires offset + 4 <= end && AttributeAt(data, offset) == Some(a)
    ensures walked + Attributes(data, offset, end) ==
            walked + [a] + Attributes(data, offset + 4 + Padded(|a.value|), end)
  {
    hide AttributeAt, Padded;
  }

  lemma LastOfOneMore(walked: seq<Attribute>, a: Attribute, kind: nat)
    ensures LastAddress(walked + [a], kind) ==
            if Read(a, kind).Some? then Read(a, kind) else LastAddress(walked, kind)
  {
    hide Read;
    assert (walked + [a])[..|walked|] == walked;
  }

  lemma NothingReadYet()
    ensures forall kind :: LastAddress([], kind) == None
  {
  }

  lemma WalkEnds(data: seq<Byte>, offset: nat, end: nat)
    requires offset + 4 > end || AttributeAt(data, offset).None?
    ensures Attributes(data, offset, end) == []
  {
  }

  lemma ValueAt(data: seq<Byte>, offset: nat)
    requires offset + 4 <= |data|
    ensures var end := offset + 4 + U16(data, offset + 2);
            AttributeAt(data, offset) ==
            if end > |data| then None else Some(Attribute(U16(data, offset), data[offset + 4..end]))
  {
  }

  method ParseBindingResponse(data: seq<Byte>, expectedTransactionId: Transaction)
    returns (r: Result<Address, StunError>)
    ensures r == Response(data, expectedTransactionId)
  {
    hide Attributes, AttributeAt, LastAddress, XorMapped, Mapped, Padded, U16, U32;
    if |data| < HEADER { return Err(TooShort); }
    var messageType := U16(data, 0);
    if messageType != BINDING_RESPONSE { return Err(UnexpectedType(messageType)); }
    var messageLength, magicCookie := U16(data, 2), U32(data, 4);
    if magicCookie != MAGIC_COOKIE { return Err(CookieMismatch); }
    if data[8..20] != expectedTransactionId { return Err(TransactionMismatch); }

    var attrsEnd := if HEADER + messageLength < |data| then HEADER + messageLength else |data|;
    var offset := HEADER;
    var mapped: Option<Address>, xorMapped: Option<Address> := None, None;
    ghost var walked: seq<Attribute> := [];
    ghost var all := Attributes(data, HEADER, attrsEnd);
    NothingReadYet();
    while offset + 4 <= attrsEnd
      invariant walked + Attributes(data, offset, attrsEnd) == all
      invariant mapped == LastAddress(walked, MAPPED_ADDRESS)
      invariant xorMapped == LastAddress(walked, XOR_MAPPED_ADDRESS)
      decreases attrsEnd - offset
    {
      var kind, length := U16(data, offset), U16(data, offset + 2);
      ValueAt(data, offset);
      var valueStart := offset + 4;
      var valueEnd := valueStart + length;
      if valueEnd > |data| { break; }
      var value := data[valueStart..valueEnd];
      ghost var a := Attribute(kind, value);
      OneMore(data, offset, attrsEnd, walked, a);
      LastOfOneMore(walked, a, XOR_MAPPED_ADDRESS);
      LastOfOneMore(walked, a, MAPPED_ADDRESS);
      walked := walked + [a];
      if kind == XOR_MAPPED_ADDRESS {
        var address := ParseXorMappedAddress(value);
        if address.Some? { xorMapped := address; }
      } else if kind == MAPPED_ADDRESS {
        var address := Mapped(value);
        if address.Some? { mapped := address; }
      }
      offset := valueStart + Padded(length);
    }
    WalkEnds(data, offset, attrsEnd);
    assert walked == all;
    return if xorMapped.Some? then Ok(xorMapped.value)
           else if mapped.Some? then Ok(mapped.value) else Err(NoMappedAddress);
  }

  // ---------------------------------------------------------------- what is reported

  /** `i` is the last attribute of its kind that holds an IPv4 address. */
  predicate IsLast(attributes: seq<Attribute>, kind: nat, i: int)
  {
    0 <= i < |attributes| && attributes[i].kind == kind && HoldsIPv4(attributes[i].value)
    && forall j :: i < j < |attributes| ==> !(attributes[j].kind == kind && HoldsIPv4(attributes[j].value))
  }

  predicate NoneHolds(attributes: seq<Attribute>, kind: nat)
  {
    forall j :: 0 <= j < |attributes| ==> !(attributes[j].kind == kind && HoldsIPv4(attributes[j].value))
  }

  lemma {:induction false} LastAddressIsLast(attributes: seq<Attribute>, kind: nat, i: int)
    requires IsLast(attributes, kind, i)
    ensures LastAddress(attributes, kind) == Read(attributes[i], kind)
  {
    var n := |attributes| - 1;
    if i < n { LastAddressIsLast(attributes[..n], kind, i); }
  }

  lemma {:induction false} LastAddressNone(attributes: seq<Attribute>, kind: nat)
    ensures LastAddress(attributes, kind).None? <==> NoneHolds(attributes, kind)
  {
    if attributes != [] {
      var n := |attributes| - 1;
      LastAddressNone(attributes[..n], kind);
      assert forall j :: 0 <= j < n ==> attributes[..n][j] == attributes[j];
    }
  }

  lemma {:induction false} LastIsThere(attributes: seq<Attribute>, kind: nat) returns (i: nat)
    requires !NoneHolds(attributes, kind)
    ensures IsLast(attributes, kind, i)
  {
    var n := |attributes| - 1;
    if attributes[n].kind == kind && HoldsIPv4(attributes[n].value) {
      i := n;
    } else {
      assert forall j :: 0 <= j < n ==> attributes[..n][j] == attributes[j];
      i := LastIsThere(attributes[..n], kind);
    }
  }

  /** The address reported is the last XOR-MAPPED-ADDRESS that holds an IPv4 address, or else
      the last such MAPPED-ADDRESS; with neither there is none to report. */
  lemma ReportsLastAddress(attributes: seq<Attribute>, i: int)
    ensures IsLast(attributes, XOR_MAPPED_ADDRESS, i) ==>
              XorMapped(attributes[i].value).Some? && Reported(attributes) == Ok(XorMapped(attributes[i].value).value)
    ensures NoneHolds(attributes, XOR_MAPPED_ADDRESS) && IsLast(attributes, MAPPED_ADDRESS, i) ==>
              Mapped(attributes[i].value).Some? && Reported(attributes) == Ok(Mapped(attributes[i].value).value)
    ensures Reported(attributes) == Err(NoMappedAddress) <==>
            NoneHolds(attributes, XOR_MAPPED_ADDRESS) && NoneHolds(attributes, MAPPED_ADDRESS)
  {
    LastAddressNone(attributes, XOR_MAPPED_ADDRESS);
    LastAddressNone(attributes, MAPPED_ADDRESS);
    if IsLast(attributes, XOR_MAPPED_ADDRESS, i) { LastAddressIsLast(attributes, XOR_MAPPED_ADDRESS, i); }
    if IsLast(attributes, MAPPED_ADDRESS, i) { LastAddressIsLast(attributes, MAPPED_ADDRESS, i); }
  }

  // ---------------------------------------------------------------- the serialiser

  /** An attribute with the bytes it is padded with, which may be anything. */
  datatype Tlv = Tlv(attribute: Attribute, pad: seq<Byte>)

  predicate Fits(t: Tlv)
  {
    && t.attribute.kind < 0x1_0000 && |t.attribute.value| < 0x1_0000
    && |t.attribute.value| + |t.pad| == Padded(|t.attribute.value|)
  }

  function SerialiseTlv(t: Tlv): seq<Byte>
    requires Fits(t)
  {
    BE16(t.attribute.kind) + BE16(|t.attribute.value|) + t.attribute.value + t.pad
  }

  function Serialise(tlvs: seq<Tlv>): seq<Byte>
    requires forall t :: t in tlvs ==> Fits(t)
  {
    if tlvs == [] then [] else SerialiseTlv(tlvs[0]) + Serialise(tlvs[1..])
  }

  function AttributesOf(tlvs: seq<Tlv>): (attributes: seq<Attribute>)
    ensures |attributes| == |tlvs| && forall i :: 0 <= i < |tlvs| ==> attributes[i] == tlvs[i].attribute
  {
    seq(|tlvs|, i requires 0 <= i < |tlvs| => tlvs[i].attribute)
  }

  function Header(kind: nat, length: nat, tid: Transaction): (h: seq<Byte>)
    requires kind < 0x1_0000 && length < 0x1_0000
    ensures |h| == HEADER
  {
    BE16(kind) + BE16(length) + COOKIE_BYTES + tid
  }

  lemma HeaderFields(kind: nat, length: nat, tid: Transaction, rest: seq<Byte>)
    requires kind < 0x1_0000 && length < 0x1_0000
    ensures var data := Header(kind, length, tid) + rest;
            U16(data, 0) == kind && U16(data, 2) == length && U32(data, 4) == MAGIC_COOKIE && data[8..20] == tid
  {
    var data := Header(kind, length, tid) + rest;
    assert data[0..2] == BE16(kind) && data[2..4] == BE16(length) && data[4..8] == COOKIE_BYTES && data[8..20] == tid;
  }

  lemma TlvIsRead(data: seq<Byte>, offset: nat, t: Tlv, rest: seq<Byte>)
    requires Fits(t) && offset <= |data| && data[offset..] == SerialiseTlv(t) + rest
    ensures AttributeAt(data, offset) == Some(t.attribute)
    ensures |SerialiseTlv(t)| == 4 + Padded(|t.attribute.value|)
    ensures data[offset + |SerialiseTlv(t)|..] == rest
  {
    var wire := SerialiseTlv(t);
    assert wire[0..2] == BE16(t.attribute.kind) && wire[2..4] == BE16(|t.attribute.value|);
    assert forall i :: 0 <= i < |wire| ==> data[offset..][i] == wire[i];
    assert data[offset + 4..offset + 4 + |t.attribute.value|] == t.attribute.value;
    assert data[offset + |wire|..] == data[offset..][|wire|..];
  }

  lemma {:induction false} AttributesAreRead(data: seq<Byte>, offset: nat, tlvs: seq<Tlv>, after: seq<Byte>)
    requires forall t :: t in tlvs ==> Fits(t)
    requires offset <= |data| && data[offset..] == Serialise(tlvs) + after
    ensures Attributes(data, offset, |data| - |after|) == AttributesOf(tlvs)
    decreases |tlvs|
  {
    hide SerialiseTlv, AttributeAt, Padded;
    if tlvs != [] {
      var wire, rest := SerialiseTlv(tlvs[0]), Serialise(tlvs[1..]);
      assert wire + rest + after == wire + (rest + after);
      TlvIsRead(data, offset, tlvs[0], rest + after);
      AttributesAreRead(data, offset + |wire|, tlvs[1..], after);
      assert AttributesOf(tlvs) == [tlvs[0].attribute] + AttributesOf(tlvs[1..]);
    }
  }

  /** Any success response is understood as the list of attributes it was built from, whatever
      they are padded with and whatever follows them. */
  lemma ResponseReportsItsAttributes(tid: Transaction, tlvs: seq<Tlv>, trailing: seq<Byte>)
    requires forall t :: t in tlvs ==> Fits(t)
    requires |Serialise(tlvs)| < 0x1_0000
    ensures Response(Header(BINDING_RESPONSE, |Serialise(tlvs)|, tid) + Serialise(tlvs) + trailing, tid) ==
            Reported(AttributesOf(tlvs))
  {
    hide Serialise, SerialiseTlv, Header, Attributes, AttributeAt, Reported, Response, U16, U32;
    var wire := Serialise(tlvs);
    var header := Header(BINDING_RESPONSE, |wire|, tid);
    var data := header + wire + trailing;
    assert data == header + (wire + trailing);
    assert data[HEADER..] == wire + trailing;
    HeaderFields(BINDING_RESPONSE, |wire|, tid, wire + trailing);
    AttributesAreRead(data, HEADER, tlvs, trailing);
    WellFormedResponse(data, tid, |data| - |trailing|);
  }

  lemma WellFormedResponse(data: seq<Byte>, tid: Transaction, end: nat)
    requires HEADER <= end <= |data| && U16(data, 0) == BINDING_RESPONSE && U16(data, 2) == end - HEADER
    requires U32(data, 4) == MAGIC_COOKIE && data[8..20] == tid
    ensures Response(data, tid) == Reported(Attributes(data, HEADER, end))
  {
    hide U32, Attributes, Reported;
    assert AttributesEnd(data) == end;
    hide U16;
  }

  /** The client learns the address a server put in the last XOR-MAPPED-ADDRESS of its answer. */
  lemma {:induction false} ClientLearnsItsAddress(tid: Transaction, tlvs: seq<Tlv>, trailing: seq<Byte>, i: nat,
                               first: Byte, address: Address, more: seq<Byte>)
    requires forall t :: t in tlvs ==> Fits(t)
    requires |Serialise(tlvs)| < 0x1_0000
    requires |address.ip| == 4 && address.port < 0x1_0000
    requires IsLast(AttributesOf(tlvs), XOR_MAPPED_ADDRESS, i)
    requires tlvs[i].attribute.value == XorMappedValue(first, address, more)
    ensures Response(Header(BINDING_RESPONSE, |Serialise(tlvs)|, tid) + Serialise(tlvs) + trailing, tid) == Ok(address)
  {
    ResponseReportsItsAttributes(tid, tlvs, trailing);
    ReportsLastAddress(AttributesOf(tlvs), i);
    AddressRoundTrips(first, address, more);
  }

  // ---------------------------------------------------------------- arbitrary bytes

  lemma TypeBytes(data: seq<Byte>)
    requires |data| >= HEADER
    ensures U16(data, 0) == BINDING_RESPONSE <==> data[0..2] == BE16(BINDING_RESPONSE)
  {
    assert data[0..2] == [data[0], data[1]] && BE16(BINDING_RESPONSE) == [1, 1];
    assert [data[0], data[1]] == [1, 1] <==> data[0] == 1 && data[1] == 1;
  }

  lemma CookieBytes(data: seq<Byte>)
    requires |data| >= HEADER
    ensures U32(data, 4) == MAGIC_COOKIE <==> data[4..8] == COOKIE_BYTES
  {
    var a, b, c, d := data[4], data[5], data[6], data[7];
    assert data[4..8] == [a, b, c, d];
    assert [a, b, c, d] == COOKIE_BYTES ==> a == 0x21 && b == 0x12 && c == 0xA4 && d == 0x42;
  }

  /** A response is taken exactly when it is a success response to this very request and
      something in it holds an address. */
  lemma {:induction false} AcceptedIff(data: seq<Byte>, tid: Transaction)
    ensures Response(data, tid).Ok? <==>
            && |data| >= HEADER && data[0..2] == BE16(BINDING_RESPONSE)
            && data[4..8] == COOKIE_BYTES && data[8..20] == tid
            && exists a :: a in Attributes(data, HEADER, AttributesEnd(data)) && HoldsIPv4(a.value)
                        && (a.kind == XOR_MAPPED_ADDRESS || a.kind == MAPPED_ADDRESS)
  {
    if |data| >= HEADER {
      TypeBytes(data);
      CookieBytes(data);
      hide U16, U32;
      var attributes := Attributes(data, HEADER, AttributesEnd(data));
      LastAddressNone(attributes, XOR_MAPPED_ADDRESS);
      LastAddressNone(attributes, MAPPED_ADDRESS);
    }
  }

  lemma AttributeSurvives(data: seq<Byte>, k: nat, offset: nat)
    requires k <= |data| && AttributeAt(data[..k], offset).Some?
    ensures AttributeAt(data, offset) == AttributeAt(data[..k], offset) && offset + 4 <= k
  {
    var end := offset + 4 + U16(data[..k], offset + 2);
    assert data[..k][offset + 4..end] == data[offset + 4..end];
  }

  /** A response cut off anywhere, as by a full receive buffer, gives a prefix of its attributes. */
  lemma {:induction false} TruncationGivesPrefix(data: seq<Byte>, k: nat, offset: nat, end: nat)
    requires k <= |data| && end <= |data|
    ensures Attributes(data[..k], offset, if end < k then end else k) <= Attributes(data, offset, end)
    decreases end - offset
  {
    hide AttributeAt, Padded;
    var cut := if end < k then end else k;
    if offset + 4 <= cut && AttributeAt(data[..k], offset).Some? {
      AttributeSurvives(data, k, offset);
      TruncationGivesPrefix(data, k, offset + 4 + Padded(|AttributeAt(data, offset).value.value|), end);
    }
  }

  // ---------------------------------------------------------------- the request

  method BuildBindingRequest(transactionId: Transaction) returns (msg: seq<Byte>)
    ensures |msg| == HEADER && U16(msg, 0) == BINDING_REQUEST && U16(msg, 2) == 0
    ensures U32(msg, 4) == MAGIC_COOKIE && msg[8..20] == transactionId
    ensures Response(msg, transactionId) == Err(UnexpectedType(BINDING_REQUEST))
  {
    msg := BE16(BINDING_REQUEST);
    msg := msg + BE16(0);
    msg := msg + COOKIE_BYTES;
    msg := msg + transactionId;
    HeaderFields(BINDING_REQUEST, 0, transactionId, []);
    assert msg == Header(BINDING_REQUEST, 0, transactionId) + [];
  }
}
