/** The binding response: what it carries, and that a receiver accepts it. */
module StunResponse {
  import opened Words
  import opened Stun

  // --- exclusive or ---

  function Xor(a: nat, b: nat, bits: nat): (r: nat)
    ensures r < Pow2(bits)
  {
    if bits == 0 then 0 else 2 * Xor(a / 2, b / 2, bits - 1) + if a % 2 == b % 2 then 0 else 1
  }

  lemma {:induction false} XorTwice(a: nat, b: nat, bits: nat)
    requires a < Pow2(bits)
    ensures Xor(Xor(a, b, bits), b, bits) == a
  {
    if bits > 0 {
      var x := Xor(a / 2, b / 2, bits - 1);
      XorTwice(a / 2, b / 2, bits - 1);
      assert Xor(a, b, bits) / 2 == x;
    }
  }

  /** Bit `i` of a number, the lowest being bit 0. */
  predicate BitOf(x: nat, i: nat)
  {
    if i == 0 then x % 2 == 1 else BitOf(x / 2, i - 1)
  }

  /** Exclusive or: a bit of the result is set exactly when the two bits differ. */
  lemma {:induction false} XorBits(a: nat, b: nat, bits: nat, i: nat)
    requires i < bits
    ensures BitOf(Xor(a, b, bits), i) <==> BitOf(a, i) != BitOf(b, i)
  {
    var x := Xor(a / 2, b / 2, bits - 1);
    assert Xor(a, b, bits) / 2 == x;
    if i > 0 {
      XorBits(a / 2, b / 2, bits - 1, i - 1);
    }
  }

  lemma XorTwo(a: nat, b: nat, bits: nat)
    ensures Xor(a, b, bits + 2) == 4 * Xor(a / 4, b / 4, bits) + Xor(a % 4, b % 4, 2)
  {
    assert a / 2 / 2 == a / 4 && b / 2 / 2 == b / 4;
    assert a / 2 % 2 == a % 4 / 2 && b / 2 % 2 == b % 4 / 2;
  }

  /** Digit by hexadecimal digit. */
  lemma XorFour(a: nat, b: nat, bits: nat)
    ensures Xor(a, b, bits + 4) == 16 * Xor(a / 16, b / 16, bits) + Xor(a % 16, b % 16, 4)
  {
    XorTwo(a, b, bits + 2);
    XorTwo(a / 4, b / 4, bits);
    XorTwo(a % 16, b % 16, 2);
    assert a / 4 / 4 == a / 16 && b / 4 / 4 == b / 16;
    assert a / 4 % 4 == a % 16 / 4 && b / 4 % 4 == b % 16 / 4;
    assert a % 16 % 4 == a % 4 && b % 16 % 4 == b % 4;
  }

  function Xor8(a: u8, b: u8): (r: u8)
    ensures Xor(r, b, 8) == a
  {
    PowersOfWords();
    XorTwice(a, b, 8);
    Xor(a, b, 8)
  }

  function Xor16(a: u16, b: u16): (r: u16)
    ensures Xor(r, b, 16) == a
  {
    PowersOfWords();
    XorTwice(a, b, 16);
    Xor(a, b, 16)
  }

  function Xor32(a: u32, b: u32): (r: u32)
    ensures Xor(r, b, 32) == a
  {
    PowersOfWords();
    XorTwice(a, b, 32);
    Xor(a, b, 32)
  }

  // --- XOR-MAPPED-ADDRESS ---

  function XorEach(s: seq<u8>, key: seq<u8>): (r: seq<u8>)
    requires |s| <= |key|
    ensures |r| == |s|
  {
    seq(|s|, i requires 0 <= i < |s| => Xor8(s[i], key[i]))
  }

  lemma XorEachTwice(s: seq<u8>, key: seq<u8>)
    requires |s| <= |key|
    ensures XorEach(XorEach(s, key), key) == s
  {
  }

  const COOKIE_HIGH: u16 := 0x2112

  function XorMapped(addr: SocketAddr, tid: TransactionId): seq<u8>
  {
    match addr
    case V4(ip, port) => [0, 1] + Bytes16(Xor16(port, COOKIE_HIGH)) + XorEach(ip, Bytes32(MAGIC_COOKIE))
    case V6(ip, port) => [0, 2] + Bytes16(Xor16(port, COOKIE_HIGH)) + XorEach(ip, Bytes32(MAGIC_COOKIE) + tid)
  }

  /** Section 14.2 of RFC 8489, as a receiver reads it. */
  function ReadXorMapped(v: seq<u8>, tid: TransactionId): Option<SocketAddr>
  {
    if |v| == 8 && v[1] == 1 then Some(V4(XorEach(v[4..8], Bytes32(MAGIC_COOKIE)), Xor16(Be16(v, 2), COOKIE_HIGH)))
    else if |v| == 20 && v[1] == 2 then
      Some(V6(XorEach(v[4..20], Bytes32(MAGIC_COOKIE) + tid), Xor16(Be16(v, 2), COOKIE_HIGH)))
    else None
  }

  /** The endpoint 192.0.2.1:32853 in octets, whatever the transaction. */
  lemma MappedInOctets(tid: TransactionId)
    ensures XorMapped(V4([192, 0, 2, 1], 32853), tid) == [0, 1, 0xA1, 0x47, 0xE1, 0x12, 0xA6, 0x43]
  {
    PortMasked();
    FirstMasked();
    LastMasked();
    var ip: Octets4 := [192, 0, 2, 1];
    assert Bytes32(MAGIC_COOKIE) == [0x21, 0x12, 0xA4, 0x42];
    assert XorEach(ip, [0x21, 0x12, 0xA4, 0x42]) == [0xE1, 0x12, 0xA6, 0x43];
    assert Bytes16(0xA147) == [0xA1, 0x47];
  }

  lemma PortMasked()
    ensures Xor16(0x8055, COOKIE_HIGH) == 0xA147
  {
    assert Xor(8, 2, 4) == 10;
    assert Xor(0, 1, 4) == 1;
    assert Xor(5, 1, 4) == 4;
    assert Xor(5, 2, 4) == 7;
    XorFour(0x80, 0x21, 4);
    XorFour(0x805, 0x211, 8);
    XorFour(0x8055, 0x2112, 12);
  }

  lemma FirstMasked()
    ensures Xor8(192, 0x21) == 0xE1 && Xor8(0, 0x12) == 0x12
  {
    assert Xor(12, 2, 4) == 14;
    assert Xor(0, 1, 4) == 1;
    assert Xor(0, 2, 4) == 2;
    XorFour(192, 0x21, 4);
    XorFour(0, 0x12, 4);
  }

  lemma LastMasked()
    ensures Xor8(2, 0xA4) == 0xA6 && Xor8(1, 0x42) == 0x43
  {
    assert Xor(0, 10, 4) == 10;
    assert Xor(2, 4, 4) == 6;
    assert Xor(0, 4, 4) == 4;
    assert Xor(1, 2, 4) == 3;
    XorFour(2, 0xA4, 4);
    XorFour(1, 0x42, 4);
  }

  lemma {:induction false} XorZero(b: nat, bits: nat)
    requires b < Pow2(bits)
    ensures Xor(0, b, bits) == b
  {
    if bits > 0 {
      XorZero(b / 2, bits - 1);
    }
  }

  lemma ZeroMasked(b: u8)
    ensures Xor8(0, b) == b
  {
    PowersOfWords();
    XorZero(b, 8);
  }

  lemma ZerosMasked(key: seq<u8>)
    ensures XorEach(Zeros(|key|), key) == key
  {
    forall i | 0 <= i < |key| ensures XorEach(Zeros(|key|), key)[i] == key[i] {
      ZeroMasked(key[i]);
    }
  }

  /** The unspecified IPv6 address shows the mask: the magic cookie, then the transaction id. */
  lemma MaskInOctets(tid: TransactionId, port: u16)
    ensures XorMapped(V6(Zeros(16), port), tid)[..2] == [0, 2]
    ensures XorMapped(V6(Zeros(16), port), tid)[4..] == [0x21, 0x12, 0xA4, 0x42] + tid
  {
    assert Bytes32(MAGIC_COOKIE) == [0x21, 0x12, 0xA4, 0x42];
    ZerosMasked(Bytes32(MAGIC_COOKIE) + tid);
    assert |Bytes16(Xor16(port, COOKIE_HIGH))| == 2;
  }

  lemma MappedReads(addr: SocketAddr, tid: TransactionId)
    ensures ReadXorMapped(XorMapped(addr, tid), tid) == Some(addr)
  {
    var v := XorMapped(addr, tid);
    var ip := match addr case V4(ip, _) => ip case V6(ip, _) => ip;
    var key := if addr.V4? then Bytes32(MAGIC_COOKIE) else Bytes32(MAGIC_COOKIE) + tid;
    assert v[2..4] == Bytes16(Xor16(addr.port, COOKIE_HIGH)) && v[4..] == XorEach(ip, key);
    assert Be16(v, 2) == Be16(v[2..4], 0);
    XorEachTwice(ip, key);
    assert v[4..|v|] == v[4..];
  }

  method EncodeXorMappedAddress(addr: SocketAddr, tid: TransactionId) returns (buf: seq<u8>)
    ensures buf == XorMapped(addr, tid)
  {
    match addr {
      case V4(ip, port) =>
        buf := PushMasked(1, port, ip, Bytes32(MAGIC_COOKIE));
      case V6(ip, port) =>
        buf := PushMasked(2, port, ip, Bytes32(MAGIC_COOKIE) + tid);
    }
  }

  method PushMasked(family: u8, port: u16, ip: seq<u8>, key: seq<u8>) returns (buf: seq<u8>)
    requires |ip| <= |key|
    ensures buf == [0, family] + Bytes16(Xor16(port, COOKIE_HIGH)) + XorEach(ip, key)
  {
    buf := [0];
    buf := buf + [family];
    assert buf == [0, family];
    buf := buf + Bytes16(Xor16(port, (MAGIC_COOKIE / 0x1_0000) as u16));
    var masked := XorBytes(ip, key);
    buf := buf + masked;
  }

  method XorBytes(s: seq<u8>, key: seq<u8>) returns (r: seq<u8>)
    requires |s| <= |key|
    ensures r == XorEach(s, key)
  {
    r := [];
    for i := 0 to |s|
      invariant |r| == i && forall k :: 0 <= k < i ==> r[k] == XorEach(s, key)[k]
    {
      r := r + [Xor8(s[i], key[i])];
    }
  }

  // --- message integrity ---

  type Hmac = (seq<u8>, seq<u8>) -> Digest

  type Crc = seq<u8> -> u32

  function WithLength(buf: seq<u8>, length: u16): (r: seq<u8>)
    requires |buf| >= 4
    ensures |r| == |buf|
  {
    buf[..2] + Bytes16(length) + buf[4..]
  }

  /**
   Section 14.5 of RFC 8489: the first MESSAGE-INTEGRITY attribute carries the HMAC of the
   message up to it, whose length is counted to the end of that attribute.
   */
  ghost predicate IntegrityHolds(hmac: Hmac, m: Message, key: seq<u8>)
    requires |m.raw| >= HEADER_SIZE && m.attributes == Attributes(m.raw, HEADER_SIZE, |m.raw|)
  {
    match FirstOf(m.attributes, ATTR_MESSAGE_INTEGRITY)
    case None => false
    case Some(k) =>
      var o := StartOf(m.raw, HEADER_SIZE, k);
      m.attributes[k].value == hmac(WithLength(m.raw[..o], Low16(o - HEADER_SIZE + 24)), key)
  }

  method VerifyMessageIntegrity(hmac: Hmac, m: Message, key: seq<u8>) returns (ok: bool)
    requires |m.raw| >= HEADER_SIZE && m.attributes == Attributes(m.raw, HEADER_SIZE, |m.raw|)
    ensures ok <==> IntegrityHolds(hmac, m, key)
  {
    var received := GetAttr(m, ATTR_MESSAGE_INTEGRITY);
    if received.None? {
      return false;
    }
    SearchesAgree(m.raw, HEADER_SIZE, ATTR_MESSAGE_INTEGRITY);
    var offset := FindAttrOffset(m.raw, ATTR_MESSAGE_INTEGRITY);
    if offset.None? {
      return false;
    }
    var adjusted := WithLength(m.raw[..offset.value], Low16(offset.value - HEADER_SIZE + 24));
    ok := hmac(adjusted, key) == received.value.value;
  }

  // --- fingerprint ---

  /**
   Section 14.7 of RFC 8489: the last attribute is the CRC-32 of the message up to it, under
   the message's own length, XORed with a constant.
   */
  ghost predicate FingerprintHolds(crc: Crc, m: Message)
    requires |m.raw| >= HEADER_SIZE && m.attributes == Attributes(m.raw, HEADER_SIZE, |m.raw|)
  {
    && m.attributes != []
    && var k := |m.attributes| - 1;
       m.attributes[k] ==
         Attribute(ATTR_FINGERPRINT, Bytes32(Xor32(crc(m.raw[..StartOf(m.raw, HEADER_SIZE, k)]), FINGERPRINT_XOR)))
  }

  // --- the response ---

  /** A response with these attributes, whatever its length field says. */
  function Whole(tid: TransactionId, attrs: seq<Attribute>, length: u16): (b: seq<u8>)
    ensures |b| == HEADER_SIZE + |Encoded(attrs)|
  {
    Header(BINDING_RESPONSE, length, tid) + Encoded(attrs)
  }

  /** The length of a message with these attributes and `more` octets still to come. */
  function LengthWith(attrs: seq<Attribute>, more: nat): u16 { Low16(|Encoded(attrs)| + more) }

  function Mapped(addr: SocketAddr, tid: TransactionId): Attribute
  {
    Attribute(ATTR_XOR_MAPPED_ADDRESS, XorMapped(addr, tid))
  }

  function Integrity(hmac: Hmac, tid: TransactionId, attrs: seq<Attribute>, key: seq<u8>): Attribute
  {
    Attribute(ATTR_MESSAGE_INTEGRITY, hmac(Whole(tid, attrs, LengthWith(attrs, 24)), key))
  }

  function Fingerprint(crc: Crc, tid: TransactionId, attrs: seq<Attribute>): Attribute
  {
    Attribute(ATTR_FINGERPRINT, Bytes32(Xor32(crc(Whole(tid, attrs, LengthWith(attrs, 8))), FINGERPRINT_XOR)))
  }

  /** The four attributes of a response, each over those before it. */
  function ResponseAttrs(hmac: Hmac, crc: Crc, tid: TransactionId, addr: SocketAddr, key: seq<u8>): seq<Attribute>
  {
    var two := [Mapped(addr, tid)] + [Attribute(ATTR_SOFTWARE, SOFTWARE)];
    var three := two + [Integrity(hmac, tid, two, key)];
    three + [Fingerprint(crc, tid, three)]
  }

  lemma {:induction false} EncodedConcat(a: seq<Attribute>, b: seq<Attribute>)
    ensures Encoded(a + b) == Encoded(a) + Encoded(b)
  {
    if a == [] {
      assert a + b == b;
    } else {
      assert (a + b)[1..] == a[1..] + b;
      EncodedConcat(a[1..], b);
      Assoc(AttrBytes(a[0]), Encoded(a[1..]), Encoded(b));
    }
  }

  lemma OneAttr(a: Attribute)
    ensures Encoded([a]) == AttrBytes(a)
  {
    assert [a][1..] == [];
  }

  lemma Written(tid: TransactionId, attrs: seq<Attribute>, length: u16, a: Attribute)
    ensures Whole(tid, attrs, length) + AttrBytes(a) == Whole(tid, attrs + [a], length)
  {
    EncodedConcat(attrs, [a]);
    OneAttr(a);
    Assoc(Header(BINDING_RESPONSE, length, tid), Encoded(attrs), AttrBytes(a));
  }

  lemma Patched(tid: TransactionId, was: u16, now: u16, body: seq<u8>)
    ensures WithLength(Header(BINDING_RESPONSE, was, tid) + body, now) == Header(BINDING_RESPONSE, now, tid) + body
  {
  }

  method Append(buf: seq<u8>, kind: u16, value: seq<u8>, ghost tid: TransactionId, ghost attrs: seq<Attribute>,
                ghost length: u16)
    returns (r: seq<u8>)
    requires buf == Whole(tid, attrs, length)
    ensures r == Whole(tid, attrs + [Attribute(kind, value)], length)
  {
    r := WriteAttr(buf, kind, value);
    Written(tid, attrs, length, Attribute(kind, value));
  }

  /** Patches the length field to count `more` octets beyond what is there. */
  method PatchLength(buf: seq<u8>, more: nat, ghost tid: TransactionId, ghost attrs: seq<Attribute>, ghost length: u16)
    returns (r: seq<u8>)
    requires buf == Whole(tid, attrs, length)
    ensures r == Whole(tid, attrs, LengthWith(attrs, more))
  {
    r := WithLength(buf, Low16(|buf| - HEADER_SIZE + more));
    Patched(tid, length, LengthWith(attrs, more), Encoded(attrs));
  }

  method BuildBindingResponse(hmac: Hmac, crc: Crc, tid: TransactionId, addr: SocketAddr, key: seq<u8>)
    returns (buf: seq<u8>)
    ensures buf == MessageOf(tid, ResponseAttrs(hmac, crc, tid, addr, key)).raw
  {
    buf := Bytes16(BINDING_RESPONSE);
    buf := buf + Bytes16(0);
    buf := buf + Bytes32(MAGIC_COOKIE);
    buf := buf + tid;
    assert buf == Whole(tid, [], 0);

    var xma := EncodeXorMappedAddress(addr, tid);
    buf := Append(buf, ATTR_XOR_MAPPED_ADDRESS, xma, tid, [], 0);
    ghost var one := [Mapped(addr, tid)];
    assert [] + one == one;
    buf := Append(buf, ATTR_SOFTWARE, SOFTWARE, tid, one, 0);
    ghost var two := one + [Attribute(ATTR_SOFTWARE, SOFTWARE)];

    buf := PatchLength(buf, 24, tid, two, 0);
    buf := Append(buf, ATTR_MESSAGE_INTEGRITY, hmac(buf, key), tid, two, LengthWith(two, 24));
    ghost var three := two + [Integrity(hmac, tid, two, key)];

    buf := PatchLength(buf, 8, tid, three, LengthWith(two, 24));
    buf := Append(buf, ATTR_FINGERPRINT, Bytes32(Xor32(crc(buf), FINGERPRINT_XOR)), tid, three, LengthWith(three, 8));
    buf := PatchLength(buf, 0, tid, three + [Fingerprint(crc, tid, three)], LengthWith(three, 8));
  }

  lemma {:induction false} StartsAt(raw: seq<u8>, pre: seq<u8>, attrs: seq<Attribute>, k: nat)
    requires raw == pre + Encoded(attrs)
    requires k <= |attrs| && forall i :: 0 <= i < |attrs| ==> |attrs[i].value| < 0x1_0000
    ensures k <= |Attributes(raw, |pre|, |raw|)| && StartOf(raw, |pre|, k) == |pre| + |Encoded(attrs[..k])|
    decreases k
  {
    EncodedRead(pre, attrs);
    if k > 0 {
      var a, rest := attrs[0], attrs[1..];
      var next := pre + AttrBytes(a);
      Assoc(pre, AttrBytes(a), Encoded(rest));
      OneRead(pre, a, Encoded(rest));
      StartsAt(raw, next, rest, k - 1);
      assert attrs[..k][0] == a && attrs[..k][1..] == rest[..k - 1];
    }
  }

  /** In a message made of these attributes the `k`-th starts behind the encoding of those before it. */
  lemma {:induction false} StartsBehind(pre: seq<u8>, attrs: seq<Attribute>, k: nat)
    requires k <= |attrs| && forall i :: 0 <= i < |attrs| ==> |attrs[i].value| < 0x1_0000
    ensures var raw := pre + Encoded(attrs);
            && k <= |Attributes(raw, |pre|, |raw|)|
            && StartOf(raw, |pre|, k) == |pre + Encoded(attrs[..k])| <= |raw|
            && raw[..StartOf(raw, |pre|, k)] == pre + Encoded(attrs[..k])
  {
    var raw, before, after := pre + Encoded(attrs), Encoded(attrs[..k]), Encoded(attrs[k..]);
    StartsAt(raw, pre, attrs, k);
    assert raw == (pre + before) + after by {
      assert attrs == attrs[..k] + attrs[k..];
      EncodedConcat(attrs[..k], attrs[k..]);
      Assoc(pre, before, after);
    }
  }

  lemma OneMoreSize(attrs: seq<Attribute>, a: Attribute)
    requires |a.value| <= 20
    ensures |Encoded(attrs)| + 4 <= |Encoded(attrs + [a])| <= |Encoded(attrs)| + 24
    ensures |a.value| == 4 ==> |Encoded(attrs + [a])| == |Encoded(attrs)| + 8
  {
    EncodedConcat(attrs, [a]);
    OneAttr(a);
  }

  function MessageOf(tid: TransactionId, attrs: seq<Attribute>): (m: Message)
    ensures |m.raw| >= HEADER_SIZE && m.attributes == attrs
  {
    Message(BINDING_RESPONSE, LengthWith(attrs, 0), tid, attrs, Whole(tid, attrs, LengthWith(attrs, 0)))
  }

  lemma MessageParses(tid: TransactionId, attrs: seq<Attribute>)
    requires |Encoded(attrs)| < 0x1_0000
    ensures var m := MessageOf(tid, attrs);
            Parsed(m.raw) == Some(m) && attrs == Attributes(m.raw, HEADER_SIZE, |m.raw|)
  {
    MessageRead(BINDING_RESPONSE, tid, attrs);
    ValuesFit(attrs);
    EncodedRead(Header(BINDING_RESPONSE, LengthWith(attrs, 0), tid), attrs);
  }

  /**
   A first MESSAGE-INTEGRITY attribute is accepted if and only if it is the one computed over the
   attributes before it, whatever follows; any other value is refused, and so is its absence.
   */
  lemma IntegrityAcceptedIff(hmac: Hmac, tid: TransactionId, attrs: seq<Attribute>, key: seq<u8>)
    requires |Encoded(attrs)| < 0x1_0000
    ensures var m, first := MessageOf(tid, attrs), FirstOf(attrs, ATTR_MESSAGE_INTEGRITY);
            && attrs == Attributes(m.raw, HEADER_SIZE, |m.raw|)
            && (IntegrityHolds(hmac, m, key) <==>
                first.Some? && attrs[first.value] == Integrity(hmac, tid, attrs[..first.value], key))
  {
    MessageParses(tid, attrs);
    ValuesFit(attrs);
    var first := FirstOf(attrs, ATTR_MESSAGE_INTEGRITY);
    if first.Some? {
      var k := first.value;
      StartsBehind(Header(BINDING_RESPONSE, LengthWith(attrs, 0), tid), attrs, k);
      var m := MessageOf(tid, attrs);
      var length := LengthWith(attrs[..k], 24);
      assert WithLength(m.raw[..StartOf(m.raw, HEADER_SIZE, k)], length) == Whole(tid, attrs[..k], length) by {
        Patched(tid, LengthWith(attrs, 0), LengthWith(attrs[..k], 24), Encoded(attrs[..k]));
      }
    }
  }

  lemma LastApart(attrs: seq<Attribute>, k: nat)
    requires |attrs| == k + 1
    ensures attrs == attrs[..k] + [attrs[k]]
  {
  }

  /** A last FINGERPRINT attribute computed over those before it matches. */
  lemma FingerprintAccepted(crc: Crc, tid: TransactionId, attrs: seq<Attribute>, k: nat)
    requires |Encoded(attrs)| < 0x1_0000 && |attrs| == k + 1 && attrs[k] == Fingerprint(crc, tid, attrs[..k])
    ensures var m := MessageOf(tid, attrs);
            attrs == Attributes(m.raw, HEADER_SIZE, |m.raw|) && FingerprintHolds(crc, m)
  {
    MessageParses(tid, attrs);
    ValuesFit(attrs);
    StartsBehind(Header(BINDING_RESPONSE, LengthWith(attrs, 0), tid), attrs, k);
    LastApart(attrs, k);
    OneMoreSize(attrs[..k], attrs[k]);
    assert LengthWith(attrs[..k], 8) == LengthWith(attrs, 0);
  }

  lemma ResponseShape(hmac: Hmac, crc: Crc, tid: TransactionId, addr: SocketAddr, key: seq<u8>)
    ensures var attrs := ResponseAttrs(hmac, crc, tid, addr, key);
            && |attrs| == 4
            && attrs[0] == Mapped(addr, tid) && attrs[1] == Attribute(ATTR_SOFTWARE, SOFTWARE)
            && attrs[2] == Integrity(hmac, tid, attrs[..2], key) && attrs[3] == Fingerprint(crc, tid, attrs[..3])
  {
    var attrs := ResponseAttrs(hmac, crc, tid, addr, key);
    FourParts([Mapped(addr, tid)] + [Attribute(ATTR_SOFTWARE, SOFTWARE)], attrs[2], attrs[3]);
  }

  lemma FourParts(two: seq<Attribute>, a: Attribute, b: Attribute)
    requires |two| == 2
    ensures var four := two + [a] + [b];
            four[..2] == two && four[..3] == two + [a] && four[2] == a && four[3] == b
  {
  }

  lemma {:induction false} SmallAttrs(attrs: seq<Attribute>)
    requires forall i :: 0 <= i < |attrs| ==> |attrs[i].value| <= 20
    ensures |Encoded(attrs)| <= 27 * |attrs|
  {
    if attrs != [] {
      SmallAttrs(attrs[1..]);
    }
  }

  /**
   For every HMAC and CRC function, transaction id, address and key: the response is parsed back
   with its four attributes in order, the address decodes, the integrity check accepts, and the
   fingerprint matches.
   */
  lemma ResponseAccepted(hmac: Hmac, crc: Crc, tid: TransactionId, addr: SocketAddr, key: seq<u8>)
    ensures var m := MessageOf(tid, ResponseAttrs(hmac, crc, tid, addr, key));
            && Parsed(m.raw) == Some(m) && m.attributes == Attributes(m.raw, HEADER_SIZE, |m.raw|)
            && |m.attributes| == 4
            && m.attributes[0].kind == ATTR_XOR_MAPPED_ADDRESS
               && ReadXorMapped(m.attributes[0].value, tid) == Some(addr)
            && m.attributes[1] == Attribute(ATTR_SOFTWARE, SOFTWARE)
            && m.attributes[2].kind == ATTR_MESSAGE_INTEGRITY && IntegrityHolds(hmac, m, key)
            && m.attributes[3].kind == ATTR_FINGERPRINT && FingerprintHolds(crc, m)
  {
    MappedReads(addr, tid);
    ResponseShape(hmac, crc, tid, addr, key);
    Accepted(hmac, crc, tid, ResponseAttrs(hmac, crc, tid, addr, key), key);
  }

  lemma Accepted(hmac: Hmac, crc: Crc, tid: TransactionId, attrs: seq<Attribute>, key: seq<u8>)
    requires |attrs| == 4 && |attrs[0].value| <= 20 && |attrs[1].value| <= 20
    requires attrs[0].kind != ATTR_MESSAGE_INTEGRITY && attrs[1].kind != ATTR_MESSAGE_INTEGRITY
    requires attrs[2] == Integrity(hmac, tid, attrs[..2], key) && attrs[3] == Fingerprint(crc, tid, attrs[..3])
    ensures var m := MessageOf(tid, attrs);
            && Parsed(m.raw) == Some(m) && attrs == Attributes(m.raw, HEADER_SIZE, |m.raw|)
            && IntegrityHolds(hmac, m, key) && FingerprintHolds(crc, m)
  {
    var m := MessageOf(tid, attrs);
    assert |Encoded(attrs)| < 0x1_0000 by {
      SmallAttrs(attrs);
    }
    assert Parsed(m.raw) == Some(m) && attrs == Attributes(m.raw, HEADER_SIZE, |m.raw|) by {
      MessageParses(tid, attrs);
    }
    assert IntegrityHolds(hmac, m, key) by {
      assert FirstOf(attrs, ATTR_MESSAGE_INTEGRITY) == Some(2);
      IntegrityAcceptedIff(hmac, tid, attrs, key);
    }
    assert FingerprintHolds(crc, m) by {
      FingerprintAccepted(crc, tid, attrs, 3);
    }
  }

  // --- a response in octets ---

  const COOKIE: seq<u8> := [0x21, 0x12, 0xA4, 0x42]

  /** XOR-MAPPED-ADDRESS of 192.0.2.1:32853, and SOFTWARE with its two octets of padding. */
  const FIRST_TWO: seq<u8> :=
    [0, 0x20, 0, 8, 0, 1, 0xA1, 0x47, 0xE1, 0x12, 0xA6, 0x43] +
    ([0x80, 0x22, 0, 14] +
     [0x6C, 0x69, 0x67, 0x68, 0x74, 0x2D, 0x6C, 0x69, 0x76, 0x65, 0x63, 0x68, 0x61, 0x74] + [0, 0])

  lemma EncodedTwo(tid: TransactionId)
    ensures Encoded([Mapped(V4([192, 0, 2, 1], 32853), tid)] + [Attribute(ATTR_SOFTWARE, SOFTWARE)]) == FIRST_TWO
  {
    var mapped, software := Mapped(V4([192, 0, 2, 1], 32853), tid), Attribute(ATTR_SOFTWARE, SOFTWARE);
    EncodedConcat([mapped], [software]);
    OneAttr(mapped);
    OneAttr(software);
    MappedAttribute(tid);
    SoftwareAttribute();
  }

  lemma HeaderOctets(tid: TransactionId, length: u16)
    ensures Header(BINDING_RESPONSE, length, tid) == [1, 1] + Bytes16(length) + COOKIE + tid
  {
    assert Bytes16(0x0101) == [1, 1] && Bytes32(0x2112_A442) == COOKIE;
  }

  lemma FirstTwoAre(tid: TransactionId, length: u16)
    ensures Whole(tid, [Mapped(V4([192, 0, 2, 1], 32853), tid)] + [Attribute(ATTR_SOFTWARE, SOFTWARE)], length) ==
            ([1, 1] + Bytes16(length) + COOKIE + tid) + FIRST_TWO
  {
    EncodedTwo(tid);
    HeaderOctets(tid, length);
  }

  lemma MappedAttribute(tid: TransactionId)
    ensures AttrBytes(Mapped(V4([192, 0, 2, 1], 32853), tid)) ==
            [0, 0x20, 0, 8, 0, 1, 0xA1, 0x47, 0xE1, 0x12, 0xA6, 0x43]
  {
    MappedInOctets(tid);
    AddressAttribute(Mapped(V4([192, 0, 2, 1], 32853), tid));
  }

  lemma AddressAttribute(a: Attribute)
    requires a.kind == ATTR_XOR_MAPPED_ADDRESS && |a.value| == 8
    ensures AttrBytes(a) == [0, 0x20, 0, 8] + a.value
  {
    assert Bytes16(0x20) == [0, 0x20] && Bytes16(8) == [0, 8] && Padded(8) == 8;
  }

  lemma SoftwareAttribute()
    ensures AttrBytes(Attribute(ATTR_SOFTWARE, SOFTWARE)) == [0x80, 0x22, 0, 14] + SOFTWARE + [0, 0]
  {
    assert Bytes16(0x8022) == [0x80, 0x22] && Bytes16(14) == [0, 14] && Padded(14) == 16;
    assert Zeros(2) == [0, 0];
  }

  /** The whole response for 192.0.2.1:32853: what is signed, what is summed, and what is sent. */
  lemma ResponseInOctets(hmac: Hmac, crc: Crc, tid: TransactionId, key: seq<u8>)
    ensures var signed := ([1, 1] + [0, 56] + COOKIE + tid) + FIRST_TWO;
            var summed := ([1, 1] + [0, 64] + COOKIE + tid) + FIRST_TWO + ([0, 8, 0, 20] + hmac(signed, key));
            MessageOf(tid, ResponseAttrs(hmac, crc, tid, V4([192, 0, 2, 1], 32853), key)).raw ==
            summed + ([0x80, 0x28, 0, 4] + Bytes32(Xor32(crc(summed), 0x5354_554E)))
  {
    var addr := V4([192, 0, 2, 1], 32853);
    var two := [Mapped(addr, tid)] + [Attribute(ATTR_SOFTWARE, SOFTWARE)];
    var mi := Integrity(hmac, tid, two, key);
    var three := two + [mi];
    var fp := Fingerprint(crc, tid, three);
    FirstTwoAre(tid, 56);
    FirstTwoAre(tid, 64);
    Sizes(tid, two, mi, fp);
    Written(tid, two, 64, mi);
    Written(tid, three, 64, fp);
    assert Bytes16(56) == [0, 56] && Bytes16(64) == [0, 64];
    DigestAttribute(mi);
    WordAttribute(fp);
  }

  lemma Sizes(tid: TransactionId, two: seq<Attribute>, mi: Attribute, fp: Attribute)
    requires Whole(tid, two, 56) == ([1, 1] + Bytes16(56) + COOKIE + tid) + FIRST_TWO
    requires |mi.value| == 20 && |fp.value| == 4
    ensures LengthWith(two, 24) == 56 && LengthWith(two + [mi], 8) == 64 && LengthWith(two + [mi] + [fp], 0) == 64
  {
    assert |Whole(tid, two, 56)| == 20 + |FIRST_TWO| == 52;
    EncodedConcat(two, [mi]);
    OneAttr(mi);
    EncodedConcat(two + [mi], [fp]);
    OneAttr(fp);
    assert Padded(20) == 20 && Padded(4) == 4;
  }

  lemma DigestAttribute(a: Attribute)
    requires a.kind == ATTR_MESSAGE_INTEGRITY && |a.value| == 20
    ensures AttrBytes(a) == [0, 8, 0, 20] + a.value
  {
    assert Bytes16(8) == [0, 8] && Bytes16(20) == [0, 20] && Padded(20) == 20;
  }

  lemma WordAttribute(a: Attribute)
    requires a.kind == ATTR_FINGERPRINT && |a.value| == 4
    ensures AttrBytes(a) == [0x80, 0x28, 0, 4] + a.value
  {
    assert Bytes16(0x8028) == [0x80, 0x28] && Bytes16(4) == [0, 4] && Padded(4) == 4;
  }
}
