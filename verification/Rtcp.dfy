/** RTCP compound handling, Generic NACK (RFC 4585 section 6.2.1), RTX (RFC 4588 section 4), REMB. */
module Rtcp {
  import opened Words

  const PT_NACK: u8 := 205
  const FMT_NACK: u8 := 1
  const PT_RR: u8 := 201
  const PT_PSFB: u8 := 206
  const FMT_PLI: u8 := 1
  const FMT_REMB: u8 := 15
  const RTX_PAYLOAD_TYPE: u8 := 97

  // --- compound packets ---

  function PacketLength(b: seq<u8>): int
    requires |b| >= 4
  {
    (Be16(b, 2) + 1) * 4
  }

  /** One RTCP packet: its length field names its own size. */
  predicate IsPacket(p: seq<u8>) { |p| >= 4 && |p| == PacketLength(p) }

  /** The front of `b` is not a whole RTCP packet. */
  predicate NoPacketAhead(b: seq<u8>) { |b| < 4 || PacketLength(b) > |b| }

  predicate IsNack(p: seq<u8>) { |p| >= 4 && p[1] == PT_NACK && p[0] % 0x20 == FMT_NACK }

  predicate IsRelayed(p: seq<u8>)
  {
    |p| >= 4 && (p[1] == PT_RR || (p[1] == PT_PSFB && (p[0] % 0x20 == FMT_PLI || p[0] % 0x20 == FMT_REMB)))
  }

  function Concat(ps: seq<seq<u8>>): seq<u8>
  {
    if ps == [] then [] else ps[0] + Concat(ps[1..])
  }

  /** The whole packets at the front of a buffer. */
  function Packets(b: seq<u8>): seq<seq<u8>>
    decreases |b|
  {
    if NoPacketAhead(b) then [] else [b[..PacketLength(b)]] + Packets(b[PacketLength(b)..])
  }

  function Select(ps: seq<seq<u8>>, keep: seq<u8> -> bool): seq<seq<u8>>
  {
    if ps == [] then []
    else (if keep(ps[0]) then [ps[0]] else []) + Select(ps[1..], keep)
  }

  /** Cutting a concatenation gives the pieces back, whatever incomplete rest follows. */
  lemma {:induction false} PacketsOfConcat(ps: seq<seq<u8>>, rest: seq<u8>)
    requires forall i :: 0 <= i < |ps| ==> IsPacket(ps[i])
    requires NoPacketAhead(rest)
    ensures Packets(Concat(ps) + rest) == ps
  {
    if ps == [] {
      assert Concat(ps) + rest == rest;
    } else {
      var b := Concat(ps) + rest;
      Assoc(ps[0], Concat(ps[1..]), rest);
      assert Be16(b, 2) == Be16(ps[0], 2);
      assert b[|ps[0]|..] == Concat(ps[1..]) + rest;
      PacketsOfConcat(ps[1..], rest);
    }
  }

  datatype BlockRef = BlockRef(offset: nat, length: nat, mediaSsrc: u32)

  /** The octets a list of references points at. */
  function Slices(buf: seq<u8>, refs: seq<BlockRef>): seq<seq<u8>>
    requires forall i :: 0 <= i < |refs| ==> refs[i].offset + refs[i].length <= |buf|
  {
    seq(|refs|, i requires 0 <= i < |refs| => buf[refs[i].offset..refs[i].offset + refs[i].length])
  }

  ghost predicate InOrder(refs: seq<BlockRef>, from: nat, end: nat)
  {
    && (forall i :: 0 <= i < |refs| ==> from <= refs[i].offset && refs[i].offset + refs[i].length <= end)
    && (forall i, j :: 0 <= i < j < |refs| ==> refs[i].offset + refs[i].length <= refs[j].offset)
  }

  /** Any RTCP packet by its first octet's low bits and its type: version 2, without padding. */
  function PacketOf(fmt: u8, kind: u8, body: seq<u8>): seq<u8>
    requires fmt < 0x20 && |body| % 4 == 0 && |body| < 0x4_0000
  {
    [0x80 + fmt, kind] + Bytes16(|body| / 4) + body
  }

  /**
   Which packets go where: receiver reports (201), PLI (206, format 1) and REMB (206, format 15)
   are relayed, Generic NACKs (205, format 1) are answered, and all other packets are neither.
   */
  lemma FiledByKind(fmt: u8, kind: u8, body: seq<u8>)
    requires fmt < 0x20 && |body| % 4 == 0 && |body| < 0x4_0000
    ensures IsPacket(PacketOf(fmt, kind, body))
    ensures IsRelayed(PacketOf(fmt, kind, body)) <==> kind == 201 || (kind == 206 && fmt in {1, 15})
    ensures IsNack(PacketOf(fmt, kind, body)) <==> kind == 205 && fmt == 1
  {
    var p := PacketOf(fmt, kind, body);
    assert p[2..4] == Bytes16(|body| / 4) && Be16(p, 2) == Be16(p[2..4], 0);
  }

  lemma {:induction false} SelectAppend(ps: seq<seq<u8>>, p: seq<u8>, keep: seq<u8> -> bool)
    ensures Select(ps + [p], keep) == Select(ps, keep) + if keep(p) then [p] else []
  {
    if ps == [] {
      assert ps + [p] == [p];
    } else {
      assert (ps + [p])[1..] == ps[1..] + [p];
      SelectAppend(ps[1..], p, keep);
      Assoc(if keep(ps[0]) then [ps[0]] else [], Select(ps[1..], keep), if keep(p) then [p] else []);
    }
  }

  /** The word a block is filed under: its own second SSRC when it has at least twelve octets. */
  function FiledUnder(buf: seq<u8>, offset: nat): u32
  {
    if offset + 12 <= |buf| then Be32(buf, offset + 8) else 0
  }

  ghost predicate Filed(buf: seq<u8>, refs: seq<BlockRef>)
  {
    forall i :: 0 <= i < |refs| ==> refs[i].mediaSsrc == FiledUnder(buf, refs[i].offset)
  }

  lemma RefAppend(buf: seq<u8>, refs: seq<BlockRef>, r: BlockRef)
    requires InOrder(refs, 0, r.offset) && r.offset + r.length <= |buf| && Filed(buf, refs)
    requires r.mediaSsrc == FiledUnder(buf, r.offset)
    ensures InOrder(refs + [r], 0, r.offset + r.length) && Filed(buf, refs + [r])
    ensures Slices(buf, refs + [r]) == Slices(buf, refs) + [buf[r.offset..r.offset + r.length]]
  {
  }

  /** Where the packet at an offset ends, by its length field. */
  function EndAt(buf: seq<u8>, offset: nat): (end: nat)
    requires offset + 4 <= |buf|
    ensures end >= offset + 4
  {
    offset + (Be16(buf, offset + 2) + 1) * 4
  }

  predicate WholeAt(buf: seq<u8>, offset: nat) { offset + 4 <= |buf| && EndAt(buf, offset) <= |buf| }

  /** The whole packets from an offset on. */
  function PacketsFrom(buf: seq<u8>, offset: nat): seq<seq<u8>>
    decreases |buf| - offset
  {
    if WholeAt(buf, offset) then [buf[offset..EndAt(buf, offset)]] + PacketsFrom(buf, EndAt(buf, offset)) else []
  }

  lemma PacketAt(buf: seq<u8>, offset: nat)
    requires WholeAt(buf, offset)
    ensures Packets(buf[offset..]) == [buf[offset..EndAt(buf, offset)]] + Packets(buf[EndAt(buf, offset)..])
  {
    var rest, end := buf[offset..], EndAt(buf, offset);
    assert PacketLength(rest) == end - offset;
    assert rest[..end - offset] == buf[offset..end] && rest[end - offset..] == buf[end..];
  }

  lemma {:induction false} PacketsFromOffset(buf: seq<u8>, offset: nat)
    requires offset <= |buf|
    ensures PacketsFrom(buf, offset) == Packets(buf[offset..])
    decreases |buf| - offset
  {
    if WholeAt(buf, offset) {
      PacketAt(buf, offset);
      PacketsFromOffset(buf, EndAt(buf, offset));
    } else {
      assert NoPacketAhead(buf[offset..]);
    }
  }

  /** The packets `done` are those before the offset. */
  ghost predicate CutSoFar(buf: seq<u8>, offset: nat, done: seq<seq<u8>>)
  {
    offset <= |buf| && done + PacketsFrom(buf, offset) == PacketsFrom(buf, 0)
  }

  /** One more packet of the buffer cut. */
  lemma CutStep(buf: seq<u8>, offset: nat, done: seq<seq<u8>>)
    requires WholeAt(buf, offset) && CutSoFar(buf, offset, done)
    ensures CutSoFar(buf, EndAt(buf, offset), done + [buf[offset..EndAt(buf, offset)]])
  {
    Assoc(done, [buf[offset..EndAt(buf, offset)]], PacketsFrom(buf, EndAt(buf, offset)));
  }

  /** No whole packet is left. */
  lemma CutWhole(buf: seq<u8>, offset: nat, done: seq<seq<u8>>)
    requires CutSoFar(buf, offset, done) && !WholeAt(buf, offset)
    ensures done == Packets(buf)
  {
    PacketsFromOffset(buf, 0);
    assert buf[0..] == buf;
  }

  /** The packets `done` so far are filed: NACKs copied, RR, PLI and REMB referenced, others ignored. */
  ghost predicate SplitSoFar(buf: seq<u8>, offset: nat, done: seq<seq<u8>>, nacks: seq<seq<u8>>, relays: seq<BlockRef>)
  {
    && offset <= |buf|
    && nacks == Select(done, IsNack)
    && InOrder(relays, 0, offset) && Filed(buf, relays)
    && Slices(buf, relays) == Select(done, IsRelayed)
  }

  method FileBlock(buf: seq<u8>, offset: nat, pktLen: nat, nacks: seq<seq<u8>>, relays: seq<BlockRef>,
                   ghost done: seq<seq<u8>>)
    returns (nacks': seq<seq<u8>>, relays': seq<BlockRef>)
    requires 4 <= pktLen && offset + pktLen <= |buf|
    requires SplitSoFar(buf, offset, done, nacks, relays)
    ensures SplitSoFar(buf, offset + pktLen, done + [buf[offset..offset + pktLen]], nacks', relays')
  {
    nacks', relays' := nacks, relays;
    var fmt := buf[offset] % 0x20;
    var pt := buf[offset + 1];
    var mediaSsrc: u32 := if offset + 12 <= |buf| then Be32(buf, offset + 8) else 0;
    ghost var p := buf[offset..offset + pktLen];
    SelectAppend(done, p, IsNack);
    SelectAppend(done, p, IsRelayed);
    if pt == PT_NACK && fmt == FMT_NACK {
      nacks' := nacks + [buf[offset..offset + pktLen]];
    } else if pt == PT_RR || (pt == PT_PSFB && fmt == FMT_PLI) || (pt == PT_PSFB && fmt == FMT_REMB) {
      RefAppend(buf, relays, BlockRef(offset, pktLen, mediaSsrc));
      relays' := relays + [BlockRef(offset, pktLen, mediaSsrc)];
    }
  }

  /**
   Splits a compound: copies of the Generic NACKs, and references to the RR, PLI and REMB
   blocks, both in order; the references are disjoint and in bounds. A block too short for a
   second SSRC is filed under the word that follows it in the buffer.
   */
  method SplitCompoundRtcp(buf: seq<u8>) returns (nacks: seq<seq<u8>>, relays: seq<BlockRef>)
    ensures nacks == Select(Packets(buf), IsNack)
    ensures InOrder(relays, 0, |buf|)
    ensures Slices(buf, relays) == Select(Packets(buf), IsRelayed)
    ensures Filed(buf, relays)
  {
    nacks, relays := [], [];
    var offset := 0;
    ghost var done: seq<seq<u8>> := [];
    while offset + 4 <= |buf|
      invariant CutSoFar(buf, offset, done)
      invariant SplitSoFar(buf, offset, done, nacks, relays)
    {
      var pktLen: int := (Be16(buf, offset + 2) + 1) * 4;
      if offset + pktLen > |buf| {
        break;
      }
      CutStep(buf, offset, done);
      nacks, relays := FileBlock(buf, offset, pktLen, nacks, relays, done);
      done := done + [buf[offset..offset + pktLen]];
      offset := offset + pktLen;
    }
    CutWhole(buf, offset, done);
  }

  /** A block of at least twelve octets is filed under its own second SSRC, wherever it stands. */
  lemma FiledByOwnSsrc(buf: seq<u8>, r: BlockRef)
    requires r.offset + r.length <= |buf| && r.length >= 12
    ensures FiledUnder(buf, r.offset) == Be32(buf[r.offset..r.offset + r.length], 8)
  {
  }

  /** A shorter one, a receiver report without blocks say, is filed under the header of the packet after it. */
  lemma ShortBlockIsMisfiled(before: seq<u8>, rr: seq<u8>, next: seq<u8>)
    requires |rr| == 8 && |next| >= 4
    ensures FiledUnder(before + rr + next, |before|) == Be32(next, 0)
  {
    var buf := before + rr + next;
    assert buf[|before| + 8..] == next;
  }

  /**
   Wherever a block stands, it is filed under the SSRC it has of itself, if and only if it is
   long enough to have one.
   */
  lemma FiledRightIff(block: seq<u8>)
    ensures (forall before: seq<u8>, after: seq<u8> ::
               FiledUnder(before + block + after, |before|) == FiledUnder(block, 0)) <==> |block| >= 12
  {
    if |block| < 12 {
      var after: seq<u8> := seq(12 - |block|, _ => 1);
      var before: seq<u8> := [];
      var b := before + block + after;
      assert b[11] == 1 && FiledUnder(b, |before|) == Be32(b, 8);
    }
  }

  method AssembleCompound(blocks: seq<seq<u8>>) returns (buf: seq<u8>)
    ensures buf == Concat(blocks)
  {
    buf := [];
    for k := 0 to |blocks|
      invariant buf + Concat(blocks[k..]) == Concat(blocks)
    {
      assert blocks[k..][1..] == blocks[k + 1..];
      buf := buf + blocks[k];
    }
  }

  lemma {:induction false} SelectedOnly(ps: seq<seq<u8>>)
    requires forall i :: 0 <= i < |ps| ==> IsPacket(ps[i])
    ensures var rs := Select(ps, IsRelayed);
            && (forall i :: 0 <= i < |rs| ==> IsPacket(rs[i]) && IsRelayed(rs[i]))
            && Select(rs, IsNack) == [] && Select(rs, IsRelayed) == rs
  {
    if ps != [] {
      SelectedOnly(ps[1..]);
      var more := Select(ps[1..], IsRelayed);
      if IsRelayed(ps[0]) {
        var rs := Select(ps, IsRelayed);
        assert rs[0] == ps[0] && rs[1..] == more && !IsNack(rs[0]);
      } else {
        assert Select(ps, IsRelayed) == more;
      }
    }
  }

  lemma {:induction false} PacketsArePackets(b: seq<u8>)
    ensures forall i :: 0 <= i < |Packets(b)| ==> IsPacket(Packets(b)[i])
    decreases |b|
  {
    if !NoPacketAhead(b) {
      var n := PacketLength(b);
      assert Be16(b[..n], 2) == Be16(b, 2);
      PacketsArePackets(b[n..]);
    }
  }

  lemma ReassembledPackets(buf: seq<u8>)
    ensures var blocks := Select(Packets(buf), IsRelayed);
            && Select(Packets(Concat(blocks)), IsRelayed) == blocks
            && Select(Packets(Concat(blocks)), IsNack) == []
  {
    var blocks := Select(Packets(buf), IsRelayed);
    PacketsArePackets(buf);
    SelectedOnly(Packets(buf));
    PacketsOfConcat(blocks, []);
    assert Concat(blocks) + [] == Concat(blocks);
  }

  /** What the splitter promises. */
  ghost predicate IsSplit(buf: seq<u8>, nacks: seq<seq<u8>>, relays: seq<BlockRef>)
  {
    && nacks == Select(Packets(buf), IsNack)
    && InOrder(relays, 0, |buf|)
    && Slices(buf, relays) == Select(Packets(buf), IsRelayed)
    && Filed(buf, relays)
  }

  /**
   Reassembling the relayed blocks of any compound and splitting again gives no NACK and the
   same blocks, each of at least twelve octets under the same media SSRC.
   */
  lemma {:induction false} ReassembledSplits(buf: seq<u8>, nacks: seq<seq<u8>>, relays: seq<BlockRef>,
                                             nacks': seq<seq<u8>>, relays': seq<BlockRef>)
    requires IsSplit(buf, nacks, relays) && IsSplit(Concat(Slices(buf, relays)), nacks', relays')
    ensures nacks' == [] && |relays'| == |relays|
    ensures Slices(Concat(Slices(buf, relays)), relays') == Slices(buf, relays)
    ensures forall i :: 0 <= i < |relays| ==>
                          && relays'[i].length == relays[i].length
                          && (relays[i].length >= 12 ==> relays'[i].mediaSsrc == relays[i].mediaSsrc)
  {
    var blocks := Slices(buf, relays);
    var again := Concat(blocks);
    assert Slices(again, relays') == blocks && nacks' == [] by {
      ReassembledPackets(buf);
    }
    SameBlocksSameSsrcs(buf, relays, again, relays');
  }

  /** References to the same blocks in two buffers have the same media SSRCs, given at least twelve octets. */
  lemma {:induction false} SameBlocksSameSsrcs(buf: seq<u8>, relays: seq<BlockRef>, buf': seq<u8>,
                                               relays': seq<BlockRef>)
    requires InOrder(relays, 0, |buf|) && Filed(buf, relays)
    requires InOrder(relays', 0, |buf'|) && Filed(buf', relays')
    requires Slices(buf, relays) == Slices(buf', relays')
    ensures |relays'| == |relays|
    ensures forall i :: 0 <= i < |relays| ==>
                          && relays'[i].length == relays[i].length
                          && (relays[i].length >= 12 ==> relays'[i].mediaSsrc == relays[i].mediaSsrc)
  {
    assert |Slices(buf, relays)| == |relays| && |Slices(buf', relays')| == |relays'|;
    forall i | 0 <= i < |relays|
      ensures relays'[i].length == relays[i].length
      ensures relays[i].length >= 12 ==> relays'[i].mediaSsrc == relays[i].mediaSsrc
    {
      assert Slices(buf, relays)[i] == Slices(buf', relays')[i];
      SameBlockSameSsrc(buf, relays[i], buf', relays'[i]);
    }
  }

  lemma SameBlockSameSsrc(buf: seq<u8>, r: BlockRef, buf': seq<u8>, r': BlockRef)
    requires r.offset + r.length <= |buf| && r'.offset + r'.length <= |buf'|
    requires buf[r.offset..r.offset + r.length] == buf'[r'.offset..r'.offset + r'.length]
    ensures r.length == r'.length
    ensures r.length >= 12 ==> FiledUnder(buf, r.offset) == FiledUnder(buf', r'.offset)
  {
    assert |buf[r.offset..r.offset + r.length]| == r.length && |buf'[r'.offset..r'.offset + r'.length]| == r'.length;
    if r.length >= 12 {
      FiledByOwnSsrc(buf, r);
      FiledByOwnSsrc(buf', r');
    }
  }

  // --- Generic NACK ---

  datatype NackItem = NackItem(mediaSsrc: u32, pid: u16, blp: u16)

  /** The (pid, blp) pairs of a feedback control field. */
  function FciItems(media: u32, fci: seq<u8>): seq<NackItem>
    decreases |fci|
  {
    if |fci| < 4 then [] else [NackItem(media, Be16(fci, 0), Be16(fci, 2))] + FciItems(media, fci[4..])
  }

  function PacketItems(p: seq<u8>): seq<NackItem>
  {
    if IsNack(p) && |p| >= 12 then FciItems(Be32(p, 8), p[12..]) else []
  }

  function ItemsOf(ps: seq<seq<u8>>): seq<NackItem>
  {
    if ps == [] then [] else PacketItems(ps[0]) + ItemsOf(ps[1..])
  }

  /**
   What the parser reads from the front of a buffer. Unlike the splitter it accepts a last
   packet that claims more than is there, and reads the items that are.
   */
  function ItemsAhead(b: seq<u8>): seq<NackItem>
    decreases |b|
  {
    if |b| < 4 then [] else ItemsHere(b) + ItemsAhead(b[Extent(b)..])
  }

  function Extent(b: seq<u8>): (n: nat)
    requires |b| >= 4
    ensures 4 <= n <= |b|
  {
    if PacketLength(b) <= |b| then PacketLength(b) else |b|
  }

  /** The items of the packet at the front; its media SSRC is looked for in the buffer. */
  function ItemsHere(b: seq<u8>): seq<NackItem>
    requires |b| >= 4
  {
    if IsNack(b) && |b| >= 12 then FciItems(Be32(b, 8), if Extent(b) < 12 then [] else b[12..Extent(b)]) else []
  }

  lemma FciAt(buf: seq<u8>, media: u32, off: nat, end: nat)
    requires off + 4 <= end <= |buf|
    ensures FciItems(media, buf[off..end]) ==
            [NackItem(media, Be16(buf, off), Be16(buf, off + 2))] + FciItems(media, buf[off + 4..end])
  {
    var fci := buf[off..end];
    assert fci[4..] == buf[off + 4..end];
    assert Be16(fci, 0) == Be16(buf, off) && Be16(fci, 2) == Be16(buf, off + 2);
  }

  method ReadFci(buf: seq<u8>, media: u32, start: nat, end: nat) returns (items: seq<NackItem>)
    requires end <= |buf|
    ensures items == FciItems(media, if start <= end then buf[start..end] else [])
  {
    items := [];
    var fciOff := start;
    ghost var all := FciItems(media, if start <= end then buf[start..end] else []);
    while fciOff + 4 <= end
      invariant start <= fciOff && (start <= end ==> fciOff <= end)
      invariant items + (if fciOff <= end then FciItems(media, buf[fciOff..end]) else []) == all
    {
      FciAt(buf, media, fciOff, end);
      var item := NackItem(media, Be16(buf, fciOff), Be16(buf, fciOff + 2));
      Assoc(items, [item], FciItems(media, buf[fciOff + 4..end]));
      items := items + [item];
      fciOff := fciOff + 4;
    }
  }

  lemma HeadAt(buf: seq<u8>, offset: nat)
    requires offset + 4 <= |buf|
    ensures var b := buf[offset..];
            && IsNack(b) == (buf[offset + 1] == PT_NACK && buf[offset] % 0x20 == FMT_NACK)
            && offset + Extent(b) == if EndAt(buf, offset) < |buf| then EndAt(buf, offset) else |buf|
  {
    assert PacketLength(buf[offset..]) == EndAt(buf, offset) - offset;
  }

  lemma TailAt(buf: seq<u8>, offset: nat, end: nat)
    requires offset + 12 <= |buf| && offset <= end <= |buf|
    ensures var b := buf[offset..];
            && Be32(b, 8) == Be32(buf, offset + 8)
            && (end >= offset + 12 ==> b[12..end - offset] == buf[offset + 12..end])
  {
  }

  lemma ItemsAt(b: seq<u8>, media: u32, fci: seq<u8>)
    requires |b| >= 12 && IsNack(b) && media == Be32(b, 8)
    requires fci == if Extent(b) < 12 then [] else b[12..Extent(b)]
    ensures ItemsHere(b) == FciItems(media, fci)
  {
  }

  method ReadBlockItems(buf: seq<u8>, offset: nat) returns (items: seq<NackItem>)
    requires offset + 4 <= |buf|
    ensures items == ItemsHere(buf[offset..])
  {
    items := [];
    var fmt := buf[offset] % 0x20;
    var pt := buf[offset + 1];
    var pktLen: int := (Be16(buf, offset + 2) as int + 1) * 4;
    HeadAt(buf, offset);
    if pt == PT_NACK && fmt == FMT_NACK {
      if offset + 12 <= |buf| {
        var media := Be32(buf, offset + 8);
        var fciEnd := if offset + pktLen < |buf| then offset + pktLen else |buf|;
        TailAt(buf, offset, fciEnd);
        ItemsAt(buf[offset..], media, if offset + 12 <= fciEnd then buf[offset + 12..fciEnd] else []);
        items := ReadFci(buf, media, offset + 12, fciEnd);
      }
    }
  }

  lemma ItemsStep(items: seq<NackItem>, b: seq<u8>, all: seq<NackItem>)
    requires |b| >= 4 && items + ItemsAhead(b) == all
    ensures (items + ItemsHere(b)) + ItemsAhead(b[Extent(b)..]) == all
  {
    Assoc(items, ItemsHere(b), ItemsAhead(b[Extent(b)..]));
  }

  method ParseRtcpNack(buf: seq<u8>) returns (items: seq<NackItem>)
    ensures items == ItemsAhead(buf)
  {
    items := [];
    var offset := 0;
    ghost var all := ItemsAhead(buf);
    ghost var b := buf;
    while offset + 4 <= |buf|
      invariant 0 <= offset && b == if offset <= |buf| then buf[offset..] else []
      invariant items + ItemsAhead(b) == all
      decreases |buf| - offset
    {
      ItemsStep(items, b, all);
      var here := ReadBlockItems(buf, offset);
      var pktLen: int := (Be16(buf, offset + 2) + 1) * 4;
      assert PacketLength(b) == pktLen;
      items := items + here;
      offset := offset + pktLen;
      b := b[Extent(b)..];
    }
  }

  lemma FrontItems(p: seq<u8>, rest: seq<u8>)
    requires IsPacket(p)
    ensures var b := p + rest;
            |b| >= 4 && Extent(b) == |p| && b[Extent(b)..] == rest && ItemsHere(b) == PacketItems(p)
  {
    var b := p + rest;
    assert Be16(b, 2) == Be16(p, 2) && b[0] == p[0] && b[1] == p[1];
    if |p| >= 12 {
      assert Be32(b, 8) == Be32(p, 8) && b[12..|p|] == p[12..];
    }
  }

  /** From a concatenation of RTCP packets the parser returns precisely the items of its NACKs. */
  lemma {:induction false} NacksRead(ps: seq<seq<u8>>)
    requires forall i :: 0 <= i < |ps| ==> IsPacket(ps[i])
    ensures ItemsAhead(Concat(ps)) == ItemsOf(ps)
  {
    if ps != [] {
      NacksRead(ps[1..]);
      FrontItems(ps[0], Concat(ps[1..]));
    }
  }

  /** A last packet cut short is none for the splitter, but the parser reads what is there of a NACK. */
  lemma TruncatedNackIsRead(p: seq<u8>, n: nat)
    requires IsPacket(p) && IsNack(p) && 12 <= n < |p|
    ensures Packets(p[..n]) == [] && ItemsAhead(p[..n]) == FciItems(Be32(p, 8), p[12..n])
  {
    var b := p[..n];
    assert PacketLength(b) == |p| && Extent(b) == n;
    assert b[12..n] == p[12..n] && b[n..] == [];
    assert ItemsAhead(b) == ItemsHere(b) + [];
  }

  function FciBytes(items: seq<NackItem>): seq<u8>
  {
    if items == [] then [] else Bytes16(items[0].pid) + Bytes16(items[0].blp) + FciBytes(items[1..])
  }

  /** A Generic NACK as RFC 4585 section 6.2.1 writes it. */
  function NackBytes(sender: u32, media: u32, items: seq<NackItem>): seq<u8>
    requires |items| < 0xFFFE
  {
    [0x81, 205] + Bytes16(2 + |items|) + Bytes32(sender) + Bytes32(media) + FciBytes(items)
  }

  lemma {:induction false} FciReads(media: u32, items: seq<NackItem>)
    requires forall i :: 0 <= i < |items| ==> items[i].mediaSsrc == media
    ensures |FciBytes(items)| == 4 * |items|
    ensures FciItems(media, FciBytes(items)) == items
  {
    if items != [] {
      var f := FciBytes(items);
      FciReads(media, items[1..]);
      assert f[4..] == FciBytes(items[1..]);
      assert f[..2] == Bytes16(items[0].pid) && f[2..4] == Bytes16(items[0].blp);
      assert Be16(f, 0) == Be16(f[..2], 0) && Be16(f, 2) == Be16(f[2..4], 0);
    }
  }

  lemma EncodedNackReads(sender: u32, media: u32, items: seq<NackItem>)
    requires |items| < 0xFFFE
    requires forall i :: 0 <= i < |items| ==> items[i].mediaSsrc == media
    ensures var p := NackBytes(sender, media, items);
            IsPacket(p) && IsNack(p) && PacketItems(p) == items
  {
    var p := NackBytes(sender, media, items);
    FciReads(media, items);
    assert p[2..4] == Bytes16(2 + |items|) && p[8..12] == Bytes32(media) && p[12..] == FciBytes(items);
    assert Be16(p, 2) == Be16(p[2..4], 0) && Be32(p, 8) == Be32(p[8..12], 0);
  }

  predicate BitSet(x: u16, i: nat) { x / Pow2(i) % 2 == 1 }

  /** Among the first `k` bits of the mask: the number itself, and for bit i the number i + 1 after it. */
  predicate LostUpTo(pid: u16, blp: u16, k: nat, n: u16)
  {
    var d: int := Wrap16(n - pid);
    d == 0 || (d <= k && BitSet(blp, d - 1))
  }

  /** RFC 4585 section 6.2.1: the packets an item reports lost. */
  predicate Lost(pid: u16, blp: u16, n: u16) { LostUpTo(pid, blp, 16, n) }

  lemma StepsAway(pid: u16, n: u16, d: u16)
    ensures Wrap16(n - pid) == d <==> n == Wrap16(pid + d)
  {
  }

  lemma LostStep(pid: u16, blp: u16, k: nat, n: u16)
    requires k < 16
    ensures LostUpTo(pid, blp, k + 1, n) <==>
            LostUpTo(pid, blp, k, n) || (BitSet(blp, k) && n == Wrap16(pid + (k + 1)))
    ensures n == Wrap16(pid + (k + 1)) ==> !LostUpTo(pid, blp, k, n)
  {
    StepsAway(pid, n, k + 1);
    if Wrap16(n - pid) == k + 1 {
      assert BitSet(blp, Wrap16(n - pid) - 1) == BitSet(blp, k);
    }
  }

  /** The lost packets of one item, each once, across the 16-bit wrap included. */
  method ExpandNack(pid: u16, blp: u16) returns (seqs: seq<u16>)
    ensures forall n: u16 :: n in seqs <==> Lost(pid, blp, n)
    ensures forall i, j :: 0 <= i < j < |seqs| ==> seqs[i] != seqs[j]
  {
    seqs := [pid];
    for i := 0 to 16
      invariant forall n: u16 :: n in seqs <==> LostUpTo(pid, blp, i, n)
      invariant forall j, k :: 0 <= j < k < |seqs| ==> seqs[j] != seqs[k]
    {
      forall n: u16 ensures LostUpTo(pid, blp, i + 1, n) <==>
                            LostUpTo(pid, blp, i, n) || (BitSet(blp, i) && n == Wrap16(pid + (i + 1))) {
        LostStep(pid, blp, i, n);
      }
      if BitSet(blp, i) {
        LostStep(pid, blp, i, Wrap16(pid + (i + 1)));
        seqs := seqs + [Wrap16(pid + (i + 1))];
      }
    }
  }

  /** A mask as a sender builds it: the first step after the number weighs one, each next one twice as much. */
  function MaskOf(lost: seq<bool>): (m: nat)
    ensures m < Pow2(|lost|)
  {
    if lost == [] then 0 else (if lost[0] then 1 else 0) + 2 * MaskOf(lost[1..])
  }

  lemma HalvedOften(x: nat, p: nat)
    requires 0 < p
    ensures x / (2 * p) == x / 2 / p
  {
    var q, r := x / (2 * p), x % (2 * p);
    assert x == q * (2 * p) + r == 2 * (q * p) + r;
    assert x / 2 == q * p + r / 2 && r / 2 < p;
    Divided(x / 2, p, q, r / 2);
  }

  lemma AtLeastOnce(k: int, p: int)
    requires k >= 1 && 0 < p
    ensures k * p >= p
  {
  }

  lemma SmallMultiple(k: int, p: int, d: int)
    requires k * p == d && -p < d < p
    ensures k == 0
  {
    if k >= 1 {
      AtLeastOnce(k, p);
    } else if k <= -1 {
      AtLeastOnce(-k, p);
    }
  }

  lemma Divided(x: nat, p: nat, q: nat, r: nat)
    requires 0 < p && x == q * p + r && r < p
    ensures x / p == q
  {
    assert x == x / p * p + x % p;
    assert (x / p - q) * p == r - x % p;
    SmallMultiple(x / p - q, p, r - x % p);
  }

  lemma {:induction false} MaskBit(lost: seq<bool>, i: nat)
    requires i < |lost| <= 16
    ensures MaskOf(lost) < 0x1_0000 && (BitSet(MaskOf(lost), i) <==> lost[i])
    decreases |lost|
  {
    MaskFits(lost);
    if i > 0 {
      MaskBit(lost[1..], i - 1);
      HalvedOften(MaskOf(lost), Pow2(i - 1));
    } else {
      assert Pow2(0) == 1;
    }
  }

  lemma {:induction false} MaskFits(lost: seq<bool>)
    requires |lost| <= 16
    ensures MaskOf(lost) < 0x1_0000
  {
    Pow2Add(|lost|, 16 - |lost|);
    PowersOfWords();
    assert MaskOf(lost) < Pow2(|lost|) <= Pow2(|lost|) * Pow2(16 - |lost|);
  }

  /** Of an item with the mask of some steps, the numbers lost are the number itself and those steps after it. */
  lemma {:induction false} MaskReads(pid: u16, lost: seq<bool>, n: u16)
    requires |lost| == 16
    ensures MaskOf(lost) < 0x1_0000
    ensures Lost(pid, MaskOf(lost), n) <==> n == pid || exists i :: 0 <= i < 16 && lost[i] && n == Wrap16(pid + i + 1)
  {
    MaskFits(lost);
    var d := Wrap16(n - pid);
    StepsAway(pid, n, d);
    if 1 <= d <= 16 {
      MaskBit(lost, d - 1);
      assert BitSet(MaskOf(lost), d - 1) == lost[d - 1];
    }
    if i :| 0 <= i < 16 && lost[i] && n == Wrap16(pid + i + 1) {
      StepsAway(pid, n, i + 1);
    }
  }

  // --- RTX ---

  function HeaderLength(b: seq<u8>): int
    requires b != []
  {
    12 + b[0] % 0x10 * 4
  }

  /** The RTX packet: the header under the RTX type, number and SSRC, then the original number, then the rest. */
  function RtxBytes(original: seq<u8>, rtxSsrc: u32, rtxSeq: u16): seq<u8>
  {
    if |original| < 12 || |original| < HeaderLength(original) then []
    else
      var h := HeaderLength(original);
      [original[0], RTX_PAYLOAD_TYPE] + Bytes16(rtxSeq) + original[4..8] + Bytes32(rtxSsrc) + original[12..h] +
      original[2..4] + original[h..]
  }

  /** The header with payload type, sequence number and SSRC overwritten. */
  method RtxHeader(header: seq<u8>, rtxSsrc: u32, rtxSeq: u16) returns (rtx: seq<u8>)
    requires |header| >= 12
    ensures rtx == [header[0], RTX_PAYLOAD_TYPE] + Bytes16(rtxSeq) + header[4..8] + Bytes32(rtxSsrc) + header[12..]
  {
    rtx := header[1 := RTX_PAYLOAD_TYPE];
    rtx := rtx[2 := rtxSeq / 0x100][3 := rtxSeq % 0x100];
    var ssrc := Bytes32(rtxSsrc);
    rtx := rtx[8 := ssrc[0]][9 := ssrc[1]][10 := ssrc[2]][11 := ssrc[3]];
  }

  method BuildRtxPacket(original: seq<u8>, rtxSsrc: u32, rtxSeq: u16) returns (rtx: seq<u8>)
    ensures rtx == RtxBytes(original, rtxSsrc, rtxSeq)
  {
    if |original| < 12 {
      return [];
    }
    var headerLen: int := 12 + original[0] % 0x10 * 4;
    if |original| < headerLen {
      return [];
    }
    rtx := RtxHeader(original[..headerLen], rtxSsrc, rtxSeq);
    assert original[..headerLen][12..] == original[12..headerLen] && original[..headerLen][4..8] == original[4..8];
    rtx := rtx + Bytes16(Be16(original, 2));
    rtx := rtx + original[headerLen..];
  }

  /** What a receiver rebuilds, given the media payload type octet and SSRC it associates with the RTX stream. */
  function Restore(rtx: seq<u8>, typeOctet: u8, ssrc: seq<u8>): seq<u8>
    requires |rtx| >= 14 && |rtx| >= HeaderLength(rtx) + 2 && |ssrc| == 4
  {
    var h := HeaderLength(rtx);
    [rtx[0], typeOctet] + rtx[h..h + 2] + rtx[4..8] + ssrc + rtx[12..h] + rtx[h + 2..]
  }

  lemma SevenParts(a: seq<u8>, b: seq<u8>, c: seq<u8>, d: seq<u8>, e: seq<u8>, f: seq<u8>, g: seq<u8>)
    requires |a| == |b| == |f| == 2 && |c| == |d| == 4
    ensures var s, h := a + b + c + d + e + f + g, 12 + |e|;
            && |s| == h + 2 + |g| && s[..2] == a && s[2..4] == b && s[4..8] == c && s[8..12] == d && s[12..h] == e
            && s[h..h + 2] == f && s[h + 2..] == g
  {
  }

  lemma RtxParts(original: seq<u8>, rtxSsrc: u32, rtxSeq: u16)
    requires |original| >= 12 && |original| >= HeaderLength(original)
    ensures var rtx, h := RtxBytes(original, rtxSsrc, rtxSeq), HeaderLength(original);
            && |rtx| == |original| + 2 && rtx[0] == original[0] && rtx[1] == RTX_PAYLOAD_TYPE
            && rtx[2..4] == Bytes16(rtxSeq) && rtx[4..8] == original[4..8] && rtx[8..12] == Bytes32(rtxSsrc)
            && rtx[12..h] == original[12..h] && rtx[h..h + 2] == original[2..4] && rtx[h + 2..] == original[h..]
  {
    var rtx, h := RtxBytes(original, rtxSsrc, rtxSeq), HeaderLength(original);
    SevenParts([original[0], RTX_PAYLOAD_TYPE], Bytes16(rtxSeq), original[4..8], Bytes32(rtxSsrc), original[12..h],
               original[2..4], original[h..]);
    assert rtx[..2][0] == rtx[0] && rtx[..2][1] == rtx[1];
  }

  /**
   The RTX form of any packet: header and CSRCs under the RTX type (97), number and SSRC, then the
   original number, then what followed the CSRCs.
   */
  lemma RtxOfPacket(fixed: seq<u8>, csrcs: seq<u8>, rest: seq<u8>, rtxSsrc: u32, rtxSeq: u16)
    requires |fixed| == 12 && |csrcs| == 4 * (fixed[0] % 0x10)
    ensures RtxBytes(fixed + csrcs + rest, rtxSsrc, rtxSeq) ==
            [fixed[0], 97] + Bytes16(rtxSeq) + fixed[4..8] + Bytes32(rtxSsrc) + csrcs + fixed[2..4] + rest
  {
    var p, h := fixed + csrcs + rest, 12 + |csrcs|;
    assert p[4..8] == fixed[4..8] && p[2..4] == fixed[2..4] && p[12..h] == csrcs && p[h..] == rest;
  }

  /** Nothing of the original is lost but the octet and the SSRC that RTX replaces. */
  lemma RtxRestores(original: seq<u8>, rtxSsrc: u32, rtxSeq: u16)
    requires |original| >= 12 && |original| >= HeaderLength(original)
    ensures var rtx := RtxBytes(original, rtxSsrc, rtxSeq);
            && |rtx| >= 14 && |rtx| >= HeaderLength(rtx) + 2
            && Be16(rtx, 2) == rtxSeq && Be32(rtx, 8) == rtxSsrc && rtx[1] == 97
            && Restore(rtx, original[1], original[8..12]) == original
  {
    var rtx, h := RtxBytes(original, rtxSsrc, rtxSeq), HeaderLength(original);
    RtxParts(original, rtxSsrc, rtxSeq);
    assert Be16(rtx, 2) == Be16(rtx[2..4], 0) && Be32(rtx, 8) == Be32(rtx[8..12], 0);
    PiecesOf(original, h);
  }

  /** What RTX restores into a packet that differs from the original in header fields only. */
  lemma RestoredPieces(original: seq<u8>, rtxSsrc: u32, rtxSeq: u16, other: seq<u8>)
    requires |original| >= 12 && |original| >= HeaderLength(original)
    requires |other| == |original| && other[0] == original[0] && other[12..] == original[12..]
    ensures var rtx, h := RtxBytes(original, rtxSsrc, rtxSeq), HeaderLength(original);
            && |rtx| >= 14 && |rtx| >= HeaderLength(rtx) + 2
            && Restore(rtx, other[1], other[8..12]) ==
               [other[0], other[1]] + original[2..4] + original[4..8] + other[8..12] + other[12..h] + other[h..]
  {
    var h := HeaderLength(original);
    RtxParts(original, rtxSsrc, rtxSeq);
    assert original[12..h] == other[12..h] && original[h..] == other[h..] by {
      assert original[12..h] == original[12..][..h - 12] && original[h..] == original[12..][h - 12..];
      assert other[12..h] == other[12..][..h - 12] && other[h..] == other[12..][h - 12..];
    }
  }

  lemma PiecesMatch(other: seq<u8>, h: nat, number: seq<u8>, ts: seq<u8>)
    requires 12 <= h <= |other| && |number| == 2 && |ts| == 4
    ensures [other[0], other[1]] + number + ts + other[8..12] + other[12..h] + other[h..] == other <==>
            number == other[2..4] && ts == other[4..8]
  {
    var p := [other[0], other[1]] + number + ts + other[8..12] + other[12..h] + other[h..];
    assert p[2..4] == number && p[4..8] == ts;
    PiecesOf(other, h);
  }

  /**
   Into a packet that differs from the original in header fields only, RTX restores that packet if
   number and timestamp agree.
   */
  lemma RtxRestoresAs(original: seq<u8>, rtxSsrc: u32, rtxSeq: u16, other: seq<u8>)
    requires |original| >= 12 && |original| >= HeaderLength(original)
    requires |other| == |original| && other[0] == original[0] && other[12..] == original[12..]
    ensures var rtx := RtxBytes(original, rtxSsrc, rtxSeq);
            && |rtx| >= 14 && |rtx| >= HeaderLength(rtx) + 2
            && (Restore(rtx, other[1], other[8..12]) == other <==>
                Be16(other, 2) == Be16(original, 2) && Be32(other, 4) == Be32(original, 4))
  {
    RestoredPieces(original, rtxSsrc, rtxSeq, other);
    PiecesMatch(other, HeaderLength(original), original[2..4], original[4..8]);
    WordsAgree(original, other);
  }

  lemma WordsAgree(a: seq<u8>, b: seq<u8>)
    requires |a| >= 8 && |b| >= 8
    ensures a[2..4] == b[2..4] <==> Be16(a, 2) == Be16(b, 2)
    ensures a[4..8] == b[4..8] <==> Be32(a, 4) == Be32(b, 4)
  {
    SameWord16(a[2..4], b[2..4]);
    SameWord32(a[4..8], b[4..8]);
    assert Be16(a, 2) == Be16(a[2..4], 0) && Be16(b, 2) == Be16(b[2..4], 0);
    assert Be32(a, 4) == Be32(a[4..8], 0) && Be32(b, 4) == Be32(b[4..8], 0);
  }

  lemma SameWord16(a: seq<u8>, b: seq<u8>)
    requires |a| == |b| == 2
    ensures a == b <==> Be16(a, 0) == Be16(b, 0)
  {
  }

  lemma SameWord32(a: seq<u8>, b: seq<u8>)
    requires |a| == |b| == 4
    ensures a == b <==> Be32(a, 0) == Be32(b, 0)
  {
    SameWord16(a[..2], b[..2]);
    SameWord16(a[2..], b[2..]);
    assert Be16(a, 0) == Be16(a[..2], 0) && Be16(a, 2) == Be16(a[2..], 0);
    assert Be16(b, 0) == Be16(b[..2], 0) && Be16(b, 2) == Be16(b[2..], 0);
    assert a == a[..2] + a[2..] && b == b[..2] + b[2..];
  }

  lemma PiecesOf(p: seq<u8>, h: nat)
    requires 12 <= h <= |p|
    ensures [p[0], p[1]] + p[2..4] + p[4..8] + p[8..12] + p[12..h] + p[h..] == p
  {
    assert p[..2] == [p[0], p[1]];
  }

  // --- REMB ---

  lemma HalveBracket(m: nat, p: int, bps: nat)
    requires 0 < p && m * p <= bps < (m + 1) * p
    ensures m / 2 * (2 * p) <= bps < (m / 2 + 1) * (2 * p)
  {
    assert m / 2 * (2 * p) == (m / 2 * 2) * p;
    assert (m / 2 + 1) * (2 * p) == (m / 2 * 2 + 2) * p;
    if m % 2 == 0 {
      assert m / 2 * 2 == m && (m + 2) * p == (m + 1) * p + p;
    } else {
      assert m / 2 * 2 == m - 1 && m * p == (m - 1) * p + p;
    }
  }

  /** The mantissa under this exponent is the rate, up to the bits shifted out. */
  ghost predicate Brackets(exp: nat, mantissa: nat, bps: nat)
  {
    mantissa * Pow2(exp) <= bps < (mantissa + 1) * Pow2(exp)
  }

  lemma HalveKeeps(exp: nat, mantissa: nat, bps: nat)
    requires Brackets(exp, mantissa, bps)
    ensures Brackets(exp + 1, mantissa / 2, bps)
  {
    HalveBracket(mantissa, Pow2(exp), bps);
  }

  lemma HalveFits(exp: nat, mantissa: nat)
    requires exp <= 46 && 0x3FFFF < mantissa < Pow2(64 - exp)
    ensures exp < 46 && mantissa / 2 < Pow2(64 - (exp + 1))
  {
    WordPowers();
  }

  /** The largest mantissa of 18 bits under the smallest exponent that fits. */
  method EncodeRembBitrate(bps: nat) returns (exp: nat, mantissa: nat)
    requires bps < 0x1_0000_0000_0000_0000
    ensures mantissa <= 0x3FFFF && exp <= 46
    ensures Brackets(exp, mantissa, bps)
    ensures exp > 0 ==> mantissa > 0x1FFFF
  {
    exp, mantissa := 0, bps;
    WordPowers();
    while mantissa > 0x3FFFF
      invariant exp <= 46 && mantissa < Pow2(64 - exp)
      invariant Brackets(exp, mantissa, bps)
      invariant exp > 0 ==> mantissa > 0x1FFFF
      decreases mantissa
    {
      HalveKeeps(exp, mantissa, bps);
      HalveFits(exp, mantissa);
      mantissa := mantissa / 2;
      exp := exp + 1;
    }
  }

  datatype Remb = Remb(exp: nat, mantissa: nat, ssrc: u32)

  /** A reader of draft-alvestrand-rmcat-remb with one SSRC. */
  function ReadRemb(b: seq<u8>): Option<Remb>
  {
    if |b| != 24 || b[0] != 0x8F || b[1] != 206 || Be16(b, 2) != 5 || b[4..12] != [0, 0, 0, 0, 0, 0, 0, 0]
       || b[12..16] != [0x52, 0x45, 0x4D, 0x42] || b[16] != 1
    then None
    else Some(Remb(b[17] / 4, b[17] as int % 4 * 0x1_0000 + Be16(b, 18), Be32(b, 20)))
  }

  method BuildRemb(bps: nat, mediaSsrc: u32) returns (buf: seq<u8>)
    requires bps < 0x1_0000_0000_0000_0000
    ensures ReadRemb(buf).Some?
    ensures var r := ReadRemb(buf).value;
            && r.ssrc == mediaSsrc && Brackets(r.exp, r.mantissa, bps)
            && (r.exp > 0 ==> r.mantissa > 0x1FFFF)
  {
    var exp, mantissa := EncodeRembBitrate(bps);
    var head: seq<u8> := [0x8F, 206, 0, 5] + Zeros(8) + [0x52, 0x45, 0x4D, 0x42];
    var rate: seq<u8> := [1, exp * 4 + mantissa / 0x1_0000 % 4, mantissa / 0x100 % 0x100, mantissa % 0x100];
    buf := head + rate + Bytes32(mediaSsrc);
    RembReads(head, rate, Bytes32(mediaSsrc), exp, mantissa);
  }

  lemma ThreeOctets(m: nat)
    ensures m / 0x1_0000 * 0x1_0000 + m / 0x100 % 0x100 * 0x100 + m % 0x100 == m
  {
    var q := m / 0x100;
    assert q / 0x100 == m / 0x1_0000;
    assert q == q / 0x100 * 0x100 + q % 0x100 && m == q * 0x100 + m % 0x100;
  }

  lemma SixBitsAndTwo(exp: nat, top: nat)
    requires top < 4 && exp <= 46
    ensures top % 4 == top && exp * 4 + top <= 0xFF && (exp * 4 + top) / 4 == exp && (exp * 4 + top) % 4 == top
  {
  }

  lemma RateRead(exp: nat, mantissa: nat)
    requires mantissa <= 0x3FFFF && exp <= 46
    ensures var hi := exp * 4 + mantissa / 0x1_0000 % 4;
            && hi <= 0xFF && hi / 4 == exp
            && hi % 4 * 0x1_0000 + mantissa / 0x100 % 0x100 * 0x100 + mantissa % 0x100 == mantissa
  {
    ThreeOctets(mantissa);
    SixBitsAndTwo(exp, mantissa / 0x1_0000);
  }

  lemma RembReads(head: seq<u8>, rate: seq<u8>, ssrc: seq<u8>, exp: nat, mantissa: nat)
    requires mantissa <= 0x3FFFF && exp <= 46 && |ssrc| == 4
    requires head == [0x8F, 206, 0, 5] + Zeros(8) + [0x52, 0x45, 0x4D, 0x42]
    requires rate == [1, exp * 4 + mantissa / 0x1_0000 % 4, mantissa / 0x100 % 0x100, mantissa % 0x100]
    ensures ReadRemb(head + rate + ssrc) == Some(Remb(exp, mantissa, Be32(ssrc, 0)))
  {
    var b := head + rate + ssrc;
    assert forall i :: 0 <= i < 16 ==> b[i] == head[i];
    assert b[12..16] == head[12..16] == [0x52, 0x45, 0x4D, 0x42];
    assert b[16] == rate[0] && b[17] == rate[1] && b[18] == rate[2] && b[19] == rate[3];
    assert b[20..24] == ssrc && Be32(b, 20) == Be32(b[20..24], 0);
    RateRead(exp, mantissa);
  }
}
