/**
 Finding the transport-wide sequence number in an RTP packet's one-byte header extensions
 (RFC 5285 section 4.2).
 */
module TwccExtension {
  import opened Words

  /** What a sender puts in the extension block: padding octets and elements of 1 to 16 octets. */
  datatype Element = Pad | Data(id: int, bytes: seq<u8>)

  ghost predicate WellFormed(e: Element)
  {
    e.Data? ==> 1 <= e.id <= 14 && 1 <= |e.bytes| <= 16
  }

  function ElementBytes(e: Element): (b: seq<u8>)
    requires WellFormed(e)
    ensures b != []
  {
    match e
    case Pad => [0]
    case Data(id, bytes) => [id * 0x10 + |bytes| - 1] + bytes
  }

  function BlockBytes(es: seq<Element>): seq<u8>
    requires forall i :: 0 <= i < |es| ==> WellFormed(es[i])
  {
    if es == [] then [] else ElementBytes(es[0]) + BlockBytes(es[1..])
  }

  /** The number a receiver should see: in the first element of this id with room for it. */
  function FirstNumber(es: seq<Element>, id: int): Option<u16>
  {
    if es == [] then None
    else if es[0].Data? && es[0].id == id && |es[0].bytes| >= 2 then Some(Be16(es[0].bytes, 0))
    else FirstNumber(es[1..], id)
  }

  /** The walk over an extension block. */
  function Walk(block: seq<u8>, id: u8): Option<u16>
    decreases |block|
  {
    if block == [] then None
    else if block[0] == 0 then Walk(block[1..], id)
    else
      var elementId, len := block[0] / 0x10, block[0] % 0x10 + 1;
      if elementId == 15 || 1 + len > |block| then None
      else if elementId == id && len >= 2 then Some(Be16(block, 1))
      else Walk(block[1 + len..], id)
  }

  /** Where the extension block of an RTP packet lies, when there is one in one-byte form. */
  function Block(buf: seq<u8>): Option<seq<u8>>
  {
    if |buf| < 12 || buf[0] / 0x10 % 2 == 0 then None
    else
      var at := 12 + buf[0] % 0x10 * 4;
      if |buf| < at + 4 || Be16(buf, at) != 0xBEDE then None
      else
        var end := at + 4 + Be16(buf, at + 2) * 4;
        if |buf| < end then None else Some(buf[at + 4..end])
  }

  method ParseTwccSeq(buf: seq<u8>, extmapId: u8) returns (r: Option<u16>)
    ensures r == if Block(buf).None? then None else Walk(Block(buf).value, extmapId)
  {
    if |buf| < 12 || buf[0] / 0x10 % 2 == 0 {
      return None;
    }
    var extOffset: nat := 12 + buf[0] % 0x10 * 4;
    if |buf| < extOffset + 4 {
      return None;
    }
    var profile: int := Be16(buf, extOffset);
    var extLenWords: int := Be16(buf, extOffset + 2);
    if profile != 0xBEDE {
      return None;
    }
    var start := extOffset + 4;
    var end := start + extLenWords * 4;
    if |buf| < end {
      return None;
    }
    r := WalkElements(buf, start, end, extmapId);
  }

  lemma WalkStep(buf: seq<u8>, pos: nat, end: nat, id: u8)
    requires pos < end <= |buf|
    ensures var len := buf[pos] % 0x10 + 1;
            Walk(buf[pos..end], id) ==
            if buf[pos] == 0 then Walk(buf[pos + 1..end], id)
            else if buf[pos] / 0x10 == 15 || pos + 1 + len > end then None
            else if buf[pos] / 0x10 == id && len >= 2 then Some(Be16(buf, pos + 1))
            else Walk(buf[pos + 1 + len..end], id)
  {
    var block, len: nat := buf[pos..end], buf[pos] % 0x10 + 1;
    assert block[1..] == buf[pos + 1..end];
    if pos + 1 + len <= end {
      assert block[1 + len..] == buf[pos + 1 + len..end];
    }
  }

  lemma WalkElement(buf: seq<u8>, pos: nat, end: nat, id: u8)
    requires pos < end <= |buf| && buf[pos] != 0 && buf[pos] / 0x10 != 15 && pos + 1 + buf[pos] % 0x10 + 1 <= end
    ensures var len := buf[pos] % 0x10 + 1;
            Walk(buf[pos..end], id) ==
            if buf[pos] / 0x10 == id && len >= 2 then Some(Be16(buf, pos + 1)) else Walk(buf[pos + 1 + len..end], id)
  {
    WalkStep(buf, pos, end, id);
  }

  method WalkElements(buf: seq<u8>, start: nat, end: nat, extmapId: u8) returns (r: Option<u16>)
    requires start <= end <= |buf|
    ensures r == Walk(buf[start..end], extmapId)
  {
    var pos := start;
    ghost var block, answer := buf[start..end], Walk(buf[start..end], extmapId);
    while pos < end
      invariant start <= pos <= end && block == buf[pos..end]
      invariant Walk(block, extmapId) == answer
    {
      if buf[pos] == 0 {
        assert answer == Walk(buf[pos + 1..end], extmapId) by {
          WalkStep(buf, pos, end, extmapId);
        }
        pos := pos + 1;
        block := buf[pos..end];
        continue;
      }
      var id, len := buf[pos] / 0x10, buf[pos] % 0x10 + 1;
      if id == 15 || pos + 1 + len > end {
        assert answer == None by {
          WalkStep(buf, pos, end, extmapId);
        }
        break;
      }
      WalkElement(buf, pos, end, extmapId);
      pos := pos + 1;
      if id == extmapId && len >= 2 {
        return Some(Be16(buf, pos));
      }
      pos := pos + len;
      block := buf[pos..end];
    }
    r := None;
  }

  lemma DataHead(id: u8, bytes: seq<u8>, rest: seq<u8>)
    requires WellFormed(Data(id, bytes))
    ensures var b := ElementBytes(Data(id, bytes)) + rest;
            && b[0] != 0 && b[0] / 0x10 == id && b[0] % 0x10 + 1 == |bytes| && 1 + |bytes| <= |b|
               && b[1 + |bytes|..] == rest
            && (|bytes| >= 2 ==> Be16(b, 1) == Be16(bytes, 0))
  {
    var b := ElementBytes(Data(id, bytes)) + rest;
    assert b[1..] == bytes + rest;
  }

  lemma {:induction false} WalkFindsFirst(es: seq<Element>, id: u8)
    requires forall i :: 0 <= i < |es| ==> WellFormed(es[i])
    ensures Walk(BlockBytes(es), id) == FirstNumber(es, id)
  {
    if es != [] {
      var b, rest := BlockBytes(es), BlockBytes(es[1..]);
      WalkFindsFirst(es[1..], id);
      match es[0] {
        case Pad =>
          assert b[1..] == rest;
        case Data(eid, bytes) =>
          DataHead(eid, bytes, rest);
      }
    }
  }

  /** An element of id 15, or one that claims more than is there, ends the walk: what came before is all there is. */
  lemma {:induction false} WalkStops(es: seq<Element>, head: u8, rest: seq<u8>, id: u8)
    requires forall i :: 0 <= i < |es| ==> WellFormed(es[i])
    requires head != 0 && (head / 0x10 == 15 || head % 0x10 + 1 > |rest|)
    ensures Walk(BlockBytes(es) + ([head] + rest), id) == FirstNumber(es, id)
  {
    var tail := [head] + rest;
    if es == [] {
      assert BlockBytes(es) + tail == tail;
    } else {
      WalkStops(es[1..], head, rest, id);
      var more := BlockBytes(es[1..]) + tail;
      assert BlockBytes(es) + tail == ElementBytes(es[0]) + more by {
        Assoc(ElementBytes(es[0]), BlockBytes(es[1..]), tail);
      }
      match es[0] {
        case Pad =>
          assert (ElementBytes(es[0]) + more)[1..] == more;
        case Data(eid, bytes) =>
          DataHead(eid, bytes, more);
      }
    }
  }

  /** A packet too short for its headers, without an extension, or with one of another form, carries no number. */
  lemma NoBlock(buf: seq<u8>)
    requires |buf| >= 12 ==>
               var at := 12 + 4 * (buf[0] % 0x10);
               buf[0] / 0x10 % 2 == 0 || |buf| < at + 4 || buf[at] != 0xBE || buf[at + 1] != 0xDE
    ensures Block(buf).None?
  {
  }

  /**
   From a packet whose block holds these elements, whatever its CSRCs and payload, the parser
   returns the number of the first element that carries one.
   */
  lemma PacketNumber(fixed: seq<u8>, csrcs: seq<u8>, es: seq<Element>, payload: seq<u8>, id: u8)
    requires |fixed| == 12 && fixed[0] / 0x10 % 2 == 1 && |csrcs| == fixed[0] % 0x10 * 4
    requires forall i :: 0 <= i < |es| ==> WellFormed(es[i])
    requires |BlockBytes(es)| % 4 == 0 && |BlockBytes(es)| / 4 < 0x1_0000
    ensures var packet := fixed + csrcs + ([0xBE, 0xDE] + Bytes16(|BlockBytes(es)| / 4)) + BlockBytes(es) + payload;
            Block(packet).Some? && Walk(Block(packet).value, id) == FirstNumber(es, id)
  {
    var block := BlockBytes(es);
    var head: seq<u8> := [0xBE, 0xDE] + Bytes16(|block| / 4);
    var packet := fixed + csrcs + head + block + payload;
    var at := 12 + |csrcs|;
    assert packet[at..at + 4] == head;
    assert Be16(packet, at) == Be16(head, 0) && Be16(packet, at + 2) == Be16(Bytes16(|block| / 4), 0);
    assert packet[at + 4..at + 4 + |block|] == block;
    WalkFindsFirst(es, id);
  }
}
