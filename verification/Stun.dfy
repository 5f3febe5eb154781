/** STUN messages (RFC 8489): attributes, XOR-MAPPED-ADDRESS, MESSAGE-INTEGRITY and FINGERPRINT. */
module Stun {
  import opened Words

  const MAGIC_COOKIE: u32 := 0x2112_A442
  const HEADER_SIZE := 20
  const BINDING_RESPONSE: u16 := 0x0101

  const ATTR_MESSAGE_INTEGRITY: u16 := 0x0008
  const ATTR_XOR_MAPPED_ADDRESS: u16 := 0x0020
  const ATTR_FINGERPRINT: u16 := 0x8028
  const ATTR_SOFTWARE: u16 := 0x8022

  /** The octets of "light-livechat". */
  const SOFTWARE: seq<u8> := [0x6C, 0x69, 0x67, 0x68, 0x74, 0x2D, 0x6C, 0x69, 0x76, 0x65, 0x63, 0x68, 0x61, 0x74]

  const FINGERPRINT_XOR: u32 := 0x5354_554E

  type TransactionId = s: seq<u8> | |s| == 12 witness [0, 0, 0, 0, 0, 0, 0, 0, 0, 0, 0, 0]

  type Digest = s: seq<u8> | |s| == 20 witness [0, 0, 0, 0, 0, 0, 0, 0, 0, 0, 0, 0, 0, 0, 0, 0, 0, 0, 0, 0]

  datatype Attribute = Attribute(kind: u16, value: seq<u8>)

  datatype Message = Message(kind: u16, length: u16, transactionId: TransactionId, attributes: seq<Attribute>,
                             raw: seq<u8>)

  // --- attributes ---

  /** A length rounded up to whole words. */
  function Padded(n: nat): (r: nat)
    ensures n <= r < n + 4
  {
    (n + 3) / 4 * 4
  }

  lemma PaddingIs(n: nat)
    ensures Padded(n) - n == (4 - n % 4) % 4
  {
  }

  /** The attributes a parser reads between two offsets of a buffer. */
  function Attributes(buf: seq<u8>, offset: nat, total: nat): seq<Attribute>
    requires offset <= total <= |buf|
    decreases total - offset
  {
    if offset + 4 > total || Next(buf, offset) > total then []
    else [AttributeAt(buf, offset)] + Attributes(buf, Next(buf, offset), total)
  }

  function LengthAt(buf: seq<u8>, offset: nat): nat
    requires offset + 4 <= |buf|
  {
    Be16(buf, offset + 2)
  }

  function AttributeAt(buf: seq<u8>, offset: nat): Attribute
    requires offset + 4 <= |buf| && offset + 4 + LengthAt(buf, offset) <= |buf|
  {
    Attribute(Be16(buf, offset), buf[offset + 4..offset + 4 + LengthAt(buf, offset)])
  }

  /** The offset behind an attribute and its padding. */
  function Next(buf: seq<u8>, offset: nat): (n: nat)
    requires offset + 4 <= |buf|
    ensures n >= offset + 4 + LengthAt(buf, offset)
  {
    offset + 4 + Padded(LengthAt(buf, offset))
  }

  function AttrBytes(a: Attribute): (b: seq<u8>)
    ensures |b| == 4 + Padded(|a.value|)
  {
    Bytes16(a.kind) + Bytes16(Low16(|a.value|)) + a.value + Zeros(Padded(|a.value|) - |a.value|)
  }

  function Encoded(attrs: seq<Attribute>): seq<u8>
  {
    if attrs == [] then [] else AttrBytes(attrs[0]) + Encoded(attrs[1..])
  }

  lemma {:induction false} EncodedAligned(attrs: seq<Attribute>)
    ensures |Encoded(attrs)| % 4 == 0
  {
    if attrs != [] {
      EncodedAligned(attrs[1..]);
      AlignedSum(|AttrBytes(attrs[0])|, |Encoded(attrs[1..])|);
    }
  }

  lemma AlignedSum(a: nat, b: nat)
    requires a % 4 == 0 && b % 4 == 0
    ensures (a + b) % 4 == 0
  {
  }

  lemma OneRead(pre: seq<u8>, a: Attribute, rest: seq<u8>)
    requires |a.value| < 0x1_0000
    ensures var b := pre + AttrBytes(a) + rest;
            && LengthAt(b, |pre|) == |a.value| && AttributeAt(b, |pre|) == a
            && Next(b, |pre|) == |pre + AttrBytes(a)|
  {
    var b := pre + AttrBytes(a) + rest;
    assert b[|pre|..|pre| + 2] == Bytes16(a.kind) && b[|pre| + 2..|pre| + 4] == Bytes16(Low16(|a.value|));
    assert Be16(b, |pre|) == Be16(b[|pre|..|pre| + 2], 0) && Be16(b, |pre| + 2) == Be16(b[|pre| + 2..|pre| + 4], 0);
    assert b[|pre| + 4..|pre| + 4 + |a.value|] == a.value;
  }

  /** Reading what was written gives the list back, whatever its attributes. */
  lemma {:induction false} EncodedRead(pre: seq<u8>, attrs: seq<Attribute>)
    requires forall i :: 0 <= i < |attrs| ==> |attrs[i].value| < 0x1_0000
    ensures Attributes(pre + Encoded(attrs), |pre|, |pre + Encoded(attrs)|) == attrs
    decreases |attrs|
  {
    if attrs != [] {
      OneRead(pre, attrs[0], Encoded(attrs[1..]));
      EncodedRead(pre + AttrBytes(attrs[0]), attrs[1..]);
      Assoc(pre, AttrBytes(attrs[0]), Encoded(attrs[1..]));
    }
  }

  // --- messages ---

  function Header(kind: u16, length: u16, tid: TransactionId): (h: seq<u8>)
    ensures |h| == 20
  {
    Bytes16(kind) + Bytes16(length) + Bytes32(MAGIC_COOKIE) + tid
  }

  /** What a receiver makes of a datagram. */
  function Parsed(buf: seq<u8>): Option<Message>
  {
    if |buf| < HEADER_SIZE || buf[0] >= 0x40 || Be32(buf, 4) != MAGIC_COOKIE || Be16(buf, 2) % 4 != 0
       || |buf| < HEADER_SIZE + Be16(buf, 2)
    then None
    else
      var total := HEADER_SIZE + Be16(buf, 2);
      Some(Message(Be16(buf, 0), Be16(buf, 2), buf[8..20], Attributes(buf, HEADER_SIZE, total), buf[..total]))
  }

  /**
   Which datagrams are messages at all: section 5 of RFC 8489 asks for two zero bits, the magic
   cookie, and a length that is a multiple of four and there.
   */
  lemma ParsedIff(buf: seq<u8>)
    ensures Parsed(buf).Some? <==>
            && |buf| >= 20 && buf[0] / 0x40 == 0 && buf[4..8] == [0x21, 0x12, 0xA4, 0x42]
            && buf[3] % 4 == 0 && 20 + 0x100 * buf[2] + buf[3] <= |buf|
  {
    if |buf| >= 20 {
      var word := buf[4..8];
      assert Be32(buf, 4) == Be32(word, 0);
      CookieOctets(word);
    }
  }

  lemma CookieOctets(word: seq<u8>)
    requires |word| == 4
    ensures Be32(word, 0) == 0x2112_A442 <==> word == [0x21, 0x12, 0xA4, 0x42]
  {
  }

  method Parse(buf: seq<u8>) returns (m: Option<Message>)
    ensures m == Parsed(buf)
  {
    if |buf| < HEADER_SIZE {
      return None;
    }
    if buf[0] / 0x40 != 0 {
      return None;
    }
    var kind, length, cookie := Be16(buf, 0), Be16(buf, 2), Be32(buf, 4);
    if cookie != MAGIC_COOKIE {
      return None;
    }
    if length % 4 != 0 {
      return None;
    }
    var total := HEADER_SIZE + length;
    if |buf| < total {
      return None;
    }
    var attrs := ParseAttributes(buf, total);
    m := Some(Message(kind, length, buf[8..20], attrs, buf[..total]));
  }

  lemma StaysAligned(offset: nat, total: nat, len: nat)
    requires offset % 4 == 0 && total % 4 == 0 && offset + len <= total
    ensures offset + Padded(len) <= total && (offset + Padded(len)) % 4 == 0
  {
    var a, t, q := offset / 4, total / 4, (len + 3) / 4;
    WholeWords(a, t, q, len);
    Multiple(a + q);
  }

  lemma WholeWords(a: int, t: int, q: int, len: int)
    requires 4 * a + len <= 4 * t && 4 * q < len + 4
    ensures a + q <= t
  {
  }

  lemma Multiple(k: int)
    ensures (4 * k) % 4 == 0
  {
  }

  /** In a whole number of words the value of an attribute fits exactly when its padding does too. */
  lemma FitsIff(buf: seq<u8>, offset: nat, total: nat)
    requires offset % 4 == 0 && total % 4 == 0 && offset + 4 <= total <= |buf|
    ensures offset + 4 + LengthAt(buf, offset) <= total <==> Next(buf, offset) <= total
    ensures Next(buf, offset) <= total ==> Next(buf, offset) % 4 == 0
  {
    if offset + 4 + LengthAt(buf, offset) <= total {
      StaysAligned(offset + 4, total, LengthAt(buf, offset));
    }
  }

  /** The attributes `attrs` are those before the offset. */
  ghost predicate ReadSoFar(buf: seq<u8>, offset: nat, total: nat, attrs: seq<Attribute>)
  {
    && HEADER_SIZE <= offset <= total <= |buf| && offset % 4 == 0
    && attrs + Attributes(buf, offset, total) == Attributes(buf, HEADER_SIZE, total)
  }

  lemma ReadStep(buf: seq<u8>, offset: nat, total: nat, attrs: seq<Attribute>)
    requires ReadSoFar(buf, offset, total, attrs) && offset + 4 <= total && total % 4 == 0
    ensures if offset + 4 + LengthAt(buf, offset) <= total
            then ReadSoFar(buf, Next(buf, offset), total, attrs + [AttributeAt(buf, offset)])
            else attrs == Attributes(buf, HEADER_SIZE, total)
  {
    FitsIff(buf, offset, total);
    if Next(buf, offset) <= total {
      Assoc(attrs, [AttributeAt(buf, offset)], Attributes(buf, Next(buf, offset), total));
    }
  }

  method ParseAttributes(buf: seq<u8>, total: nat) returns (attrs: seq<Attribute>)
    requires HEADER_SIZE <= total <= |buf| && total % 4 == 0
    ensures attrs == Attributes(buf, HEADER_SIZE, total)
  {
    attrs := [];
    var offset: nat := HEADER_SIZE;
    while offset + 4 <= total
      invariant ReadSoFar(buf, offset, total, attrs)
      decreases total - offset
    {
      ReadStep(buf, offset, total, attrs);
      var kind, len: nat := Be16(buf, offset), Be16(buf, offset + 2);
      offset := offset + 4;
      if offset + len > total {
        break;
      }
      attrs := attrs + [Attribute(kind, buf[offset..offset + len])];
      offset := offset + Padded(len);
    }
  }

  method WriteAttr(buf: seq<u8>, kind: u16, value: seq<u8>) returns (r: seq<u8>)
    ensures r == buf + AttrBytes(Attribute(kind, value))
  {
    r := buf + Bytes16(kind);
    r := r + Bytes16(Low16(|value|));
    r := r + value;
    PaddingIs(|value|);
    r := r + Zeros((4 - |value| % 4) % 4);
  }

  /** A header and any attributes that fit are parsed back as they were. */
  lemma MessageRead(kind: u16, tid: TransactionId, attrs: seq<Attribute>)
    requires kind < 0x4000 && |Encoded(attrs)| < 0x1_0000
    ensures var buf := Header(kind, |Encoded(attrs)|, tid) + Encoded(attrs);
            Parsed(buf) == Some(Message(kind, |Encoded(attrs)|, tid, attrs, buf))
  {
    var n := |Encoded(attrs)|;
    var buf := Header(kind, n, tid) + Encoded(attrs);
    HeaderRead(kind, n, tid, Encoded(attrs));
    EncodedAligned(attrs);
    assert |buf| == HEADER_SIZE + n && buf[..HEADER_SIZE + n] == buf;
    assert Attributes(buf, HEADER_SIZE, |buf|) == attrs by {
      ValuesFit(attrs);
      EncodedRead(Header(kind, n, tid), attrs);
    }
  }

  lemma HeaderRead(kind: u16, length: u16, tid: TransactionId, body: seq<u8>)
    ensures var buf := Header(kind, length, tid) + body;
            Be16(buf, 0) == kind && Be16(buf, 2) == length && Be32(buf, 4) == MAGIC_COOKIE && buf[8..20] == tid
            && (buf[0] < 0x40 <==> kind < 0x4000)
  {
    var buf := Header(kind, length, tid) + body;
    assert buf[0..2] == Bytes16(kind) && buf[2..4] == Bytes16(length) && buf[4..8] == Bytes32(MAGIC_COOKIE);
    assert Be16(buf, 0) == Be16(buf[0..2], 0) && Be16(buf, 2) == Be16(buf[2..4], 0)
           && Be32(buf, 4) == Be32(buf[4..8], 0);
  }

  lemma {:induction false} ValuesFit(attrs: seq<Attribute>)
    ensures forall i :: 0 <= i < |attrs| ==> |attrs[i].value| <= |Encoded(attrs)|
  {
    if attrs != [] {
      ValuesFit(attrs[1..]);
      forall i | 0 <= i < |attrs| ensures |attrs[i].value| <= |Encoded(attrs)| {
        assert i > 0 ==> attrs[i] == attrs[1..][i - 1];
      }
    }
  }

  // --- finding an attribute ---

  /** The first attribute of a kind, as its position in the list. */
  function FirstOf(attrs: seq<Attribute>, kind: u16): (k: Option<nat>)
    ensures k.Some? ==>
              k.value < |attrs| && attrs[k.value].kind == kind && forall i :: 0 <= i < k.value ==> attrs[i].kind != kind
    ensures k.None? ==> forall i :: 0 <= i < |attrs| ==> attrs[i].kind != kind
  {
    if attrs == [] then None
    else if attrs[0].kind == kind then Some(0)
    else
      match FirstOf(attrs[1..], kind)
      case Some(k) => Some(k + 1)
      case None => None
  }

  function GetAttr(m: Message, kind: u16): Option<Attribute>
  {
    match FirstOf(m.attributes, kind)
    case Some(k) => Some(m.attributes[k])
    case None => None
  }

  /** Where the `k`-th attribute starts, or for `k` past the last where reading stops. */
  function StartOf(raw: seq<u8>, offset: nat, k: nat): (o: nat)
    requires offset <= |raw| && k <= |Attributes(raw, offset, |raw|)|
    ensures offset <= o <= |raw|
    decreases k
  {
    if k == 0 then offset else StartOf(raw, Next(raw, offset), k - 1)
  }

  /** What the offset search finds: it looks at types only, not at whether the value is there. */
  function OffsetFrom(raw: seq<u8>, offset: nat, kind: u16): Option<nat>
    decreases |raw| - offset
  {
    if offset + 4 > |raw| then None
    else if Be16(raw, offset) == kind then Some(offset)
    else OffsetFrom(raw, Next(raw, offset), kind)
  }

  method FindAttrOffset(raw: seq<u8>, kind: u16) returns (o: Option<nat>)
    ensures o == OffsetFrom(raw, HEADER_SIZE, kind)
  {
    var offset: nat := HEADER_SIZE;
    while offset + 4 <= |raw|
      invariant OffsetFrom(raw, offset, kind) == OffsetFrom(raw, HEADER_SIZE, kind)
      decreases |raw| - offset
    {
      if Be16(raw, offset) == kind {
        return Some(offset);
      }
      var len: nat := Be16(raw, offset + 2);
      offset := offset + (4 + Padded(len));
    }
    o := None;
  }

  /** What is left where reading stops starts like an attribute of this kind, but is cut short. */
  predicate CutShort(raw: seq<u8>, offset: nat, kind: u16)
    requires offset <= |raw|
  {
    var o := StartOf(raw, offset, |Attributes(raw, offset, |raw|)|);
    o + 4 <= |raw| && Be16(raw, o) == kind
  }

  lemma {:induction false} SearchesAgree(raw: seq<u8>, offset: nat, kind: u16)
    requires offset <= |raw|
    ensures var attrs := Attributes(raw, offset, |raw|);
            match FirstOf(attrs, kind)
            case Some(k) =>
              var o := StartOf(raw, offset, k);
              OffsetFrom(raw, offset, kind) == Some(o) && o + 4 <= |raw| && Next(raw, o) <= |raw|
                && AttributeAt(raw, o) == attrs[k]
            case None =>
              OffsetFrom(raw, offset, kind) ==
              if CutShort(raw, offset, kind) then Some(StartOf(raw, offset, |attrs|)) else None
    decreases |raw| - offset
  {
    if offset + 4 <= |raw| && Next(raw, offset) <= |raw| {
      var attrs := Attributes(raw, offset, |raw|);
      assert attrs[1..] == Attributes(raw, Next(raw, offset), |raw|);
      if attrs[0].kind != kind {
        SearchesAgree(raw, Next(raw, offset), kind);
      }
    }
  }

  lemma {:induction false} AttributesOfPrefix(buf: seq<u8>, offset: nat, total: nat)
    requires offset <= total <= |buf|
    ensures Attributes(buf[..total], offset, total) == Attributes(buf, offset, total)
    decreases total - offset
  {
    if offset + 4 <= total {
      assert Be16(buf[..total], offset) == Be16(buf, offset) && LengthAt(buf[..total], offset) == LengthAt(buf, offset);
      if Next(buf, offset) <= total {
        assert AttributeAt(buf[..total], offset) == AttributeAt(buf, offset);
        AttributesOfPrefix(buf, Next(buf, offset), total);
      }
    }
  }

  /**
   On every accepted message: an attribute the list lookup finds is found by the offset search
   at that same first occurrence; the offset search finds one more case, an attribute of the
   kind cut short by the end of the message.
   */
  lemma LookupsAgree(buf: seq<u8>, kind: u16)
    requires Parsed(buf).Some?
    ensures var m := Parsed(buf).value;
            && |m.raw| >= HEADER_SIZE && m.attributes == Attributes(m.raw, HEADER_SIZE, |m.raw|)
            && (OffsetFrom(m.raw, HEADER_SIZE, kind).Some? <==>
                GetAttr(m, kind).Some? || CutShort(m.raw, HEADER_SIZE, kind))
            && (GetAttr(m, kind).Some? ==>
                  var o := StartOf(m.raw, HEADER_SIZE, FirstOf(m.attributes, kind).value);
                  OffsetFrom(m.raw, HEADER_SIZE, kind) == Some(o) && o + 4 <= |m.raw| && Next(m.raw, o) <= |m.raw| &&
                  Some(AttributeAt(m.raw, o)) == GetAttr(m, kind))
  {
    var m := Parsed(buf).value;
    AttributesOfPrefix(buf, HEADER_SIZE, HEADER_SIZE + m.length);
    SearchesAgree(m.raw, HEADER_SIZE, kind);
  }

  /** A message whose body is the head of one integrity attribute, its twenty octets missing. */
  function HeadOnly(tid: TransactionId): seq<u8>
  {
    Header(BINDING_RESPONSE, 4, tid) + (Bytes16(ATTR_MESSAGE_INTEGRITY) + Bytes16(20))
  }

  /** It is accepted without attributes, and the offset search finds the attribute all the same. */
  lemma CutShortIsFound(tid: TransactionId)
    ensures var buf := HeadOnly(tid);
            && Parsed(buf) == Some(Message(BINDING_RESPONSE, 4, tid, [], buf))
            && CutShort(buf, HEADER_SIZE, ATTR_MESSAGE_INTEGRITY)
            && OffsetFrom(buf, HEADER_SIZE, ATTR_MESSAGE_INTEGRITY) == Some(HEADER_SIZE)
  {
    var buf, body := HeadOnly(tid), Bytes16(ATTR_MESSAGE_INTEGRITY) + Bytes16(20);
    HeaderRead(BINDING_RESPONSE, 4, tid, body);
    assert buf[20..22] == Bytes16(ATTR_MESSAGE_INTEGRITY) && buf[22..24] == Bytes16(20);
    assert Be16(buf, 20) == Be16(buf[20..22], 0) && Be16(buf, 22) == Be16(buf[22..24], 0);
    assert buf[..24] == buf;
  }
}
