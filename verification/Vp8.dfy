/** Telling a VP8 key frame from its RTP packet (RFC 7741 sections 4.2 and 4.3). */
module Vp8 {
  import opened Words

  predicate Bit(b: u8, weight: int)
    requires 0 < weight
  {
    b / weight % 2 == 1
  }

  // --- reader ---

  /** Where the payload starts: fixed header, CSRCs, header extension. */
  function PayloadAt(p: seq<u8>): Option<nat>
    requires |p| >= 12
  {
    var at := 12 + p[0] % 0x10 * 4;
    if !Bit(p[0], 0x10) then Some(at)
    else if |p| < at + 4 then None
    else Some(at + 4 + Be16(p, at + 2) * 4)
  }

  /** Length of the picture id field: seven bits in one octet or fifteen in two. */
  function PictureIdLength(d: seq<u8>, at: nat): nat
    requires at < |d|
  {
    if HighBit(d[at]) then 2 else 1
  }

  /** Length of a payload descriptor at the front of `d`, if it can be read that far. */
  function DescriptorLength(d: seq<u8>): Option<nat>
    requires d != []
  {
    if !HighBit(d[0]) then Some(1)
    else if |d| < 2 then None
    else if Bit(d[1], 0x80) && |d| < 3 then None
    else
      Some(2 + (if Bit(d[1], 0x80) then PictureIdLength(d, 2) else 0)
           + (if Bit(d[1], 0x40) then 1 else 0)
           + (if Bit(d[1], 0x20) || Bit(d[1], 0x10) then 1 else 0))
  }

  function Keyframe(p: seq<u8>): bool
  {
    |p| >= 13 && PayloadAt(p).Some? && PayloadAt(p).value < |p| &&
    var d := p[PayloadAt(p).value..];
    Bit(d[0], 0x10) && DescriptorLength(d).Some? && DescriptorLength(d).value < |d| &&
    d[DescriptorLength(d).value] % 2 == 0
  }

  /** The offset past the descriptor that starts at `offset`. */
  method SkipDescriptor(p: seq<u8>, offset: nat) returns (end: Option<nat>)
    requires offset < |p|
    ensures var len := DescriptorLength(p[offset..]);
            if len.None? then end.None? else end == Some(offset + len.value)
  {
    var pdOffset: nat := offset + 1;
    if HighBit(p[offset]) {
      if |p| <= pdOffset {
        return None;
      }
      var x := p[pdOffset];
      pdOffset := pdOffset + 1;
      if Bit(x, 0x80) {
        if |p| <= pdOffset {
          return None;
        }
        if HighBit(p[pdOffset]) {
          pdOffset := pdOffset + 2;
        } else {
          pdOffset := pdOffset + 1;
        }
      }
      if Bit(x, 0x40) {
        pdOffset := pdOffset + 1;
      }
      if Bit(x, 0x20) || Bit(x, 0x10) {
        pdOffset := pdOffset + 1;
      }
    }
    end := Some(pdOffset);
  }

  method IsVp8Keyframe(p: seq<u8>) returns (r: bool)
    ensures r == Keyframe(p)
  {
    if |p| < 13 {
      return false;
    }
    var offset: nat := 12 + p[0] % 0x10 * 4;
    if Bit(p[0], 0x10) {
      if |p| < offset + 4 {
        return false;
      }
      offset := offset + (4 + Be16(p, offset + 2) as int * 4);
    }
    if |p| <= offset {
      return false;
    }
    assert PayloadAt(p) == Some(offset);
    ghost var d := p[offset..];
    assert d[0] == p[offset];
    if !Bit(p[offset], 0x10) {
      return false;
    }
    var end := SkipDescriptor(p, offset);
    if end.None? || |p| <= end.value {
      return false;
    }
    assert d[end.value - offset] == p[end.value];
    r := p[end.value] % 2 == 0;
  }

  // --- writer ---

  /** A payload descriptor; the extension octets are present as the flags say. */
  datatype Descriptor = Descriptor(first: u8, extension: Option<Extension>)
  datatype Extension = Extension(flags: u8, pictureId: seq<u8>, tl0PicIdx: seq<u8>, tidKeyIdx: seq<u8>)

  /** RFC 7741 section 4.2: which octets are there, by the X bit and the I, L, T and K flags, and the M bit. */
  ghost predicate WellFormed(d: Descriptor)
  {
    && (d.first >= 0x80 <==> d.extension.Some?)
    && (d.extension.Some? ==>
          var e := d.extension.value;
          && (if e.flags >= 0x80 then e.pictureId != [] && |e.pictureId| == (if e.pictureId[0] >= 0x80 then 2 else 1)
              else e.pictureId == [])
          && |e.tl0PicIdx| == (if e.flags / 0x40 % 2 == 1 then 1 else 0)
          && |e.tidKeyIdx| == (if e.flags / 0x20 % 2 == 1 || e.flags / 0x10 % 2 == 1 then 1 else 0))
  }

  function DescriptorBytes(d: Descriptor): seq<u8>
  {
    [d.first] +
    match d.extension
    case Some(e) => [e.flags] + e.pictureId + e.tl0PicIdx + e.tidKeyIdx
    case None => []
  }

  predicate StartOfPartition(d: Descriptor) { d.first / 0x10 % 2 == 1 }

  function PartitionIndex(d: Descriptor): int { d.first % 8 }

  lemma DescriptorReads(d: Descriptor, frame: seq<u8>)
    requires WellFormed(d) && frame != []
    ensures DescriptorLength(DescriptorBytes(d) + frame) == Some(|DescriptorBytes(d)|)
  {
    var b := DescriptorBytes(d) + frame;
    assert b[0] == d.first;
    if d.extension.Some? {
      var e := d.extension.value;
      assert b[1] == e.flags;
      if Bit(e.flags, 0x80) {
        assert b[2] == e.pictureId[0];
      }
    }
  }

  /**
   For every packet, whatever its CSRCs, header extension and descriptor, the answer is: the
   start of a partition whose first octet has a clear low bit.
   */
  lemma KeyframeIs(fixed: seq<u8>, csrcs: seq<u8>, ext: seq<u8>, d: Descriptor, frame: seq<u8>)
    requires |fixed| == 12 && |csrcs| == fixed[0] % 0x10 * 4 && WellFormed(d) && frame != []
    requires if fixed[0] / 0x10 % 2 == 1 then |ext| >= 4 && |ext| == 4 + Be16(ext, 2) * 4 else ext == []
    ensures Keyframe(fixed + csrcs + ext + DescriptorBytes(d) + frame) <==> StartOfPartition(d) && frame[0] % 2 == 0
  {
    var p := fixed + csrcs + ext + DescriptorBytes(d) + frame;
    var at := 12 + |csrcs| + |ext|;
    assert p[0] == fixed[0];
    if ext != [] {
      assert p[12 + |csrcs| + 2] == ext[2] && p[12 + |csrcs| + 3] == ext[3];
    }
    assert PayloadAt(p) == Some(at);
    assert p[at..] == DescriptorBytes(d) + frame;
    DescriptorReads(d, frame);
  }

  /** RFC 7741 section 4.3: a key frame shows in the payload header, which only partition 0 carries. */
  ghost predicate IsKeyframeStart(d: Descriptor, frame: seq<u8>)
    requires frame != []
  {
    StartOfPartition(d) && PartitionIndex(d) == 0 && frame[0] % 2 == 0
  }

  /** The detector ignores the partition index: it is right unless a later partition starts with an even octet. */
  lemma KeyframeRightIff(fixed: seq<u8>, csrcs: seq<u8>, ext: seq<u8>, d: Descriptor, frame: seq<u8>)
    requires |fixed| == 12 && |csrcs| == fixed[0] % 0x10 * 4 && WellFormed(d) && frame != []
    requires if fixed[0] / 0x10 % 2 == 1 then |ext| >= 4 && |ext| == 4 + Be16(ext, 2) * 4 else ext == []
    ensures (Keyframe(fixed + csrcs + ext + DescriptorBytes(d) + frame) <==> IsKeyframeStart(d, frame)) <==>
            !(StartOfPartition(d) && PartitionIndex(d) != 0 && frame[0] % 2 == 0)
  {
    KeyframeIs(fixed, csrcs, ext, d, frame);
  }

  /** It happens: a partition that is not the first, starting with an even octet, is taken for a key frame. */
  lemma LaterPartitionTakenForKeyframe(fixed: seq<u8>)
    requires |fixed| == 12 && fixed[0] == 0x80
    ensures var d := Descriptor(0x11, None);
            && WellFormed(d) && PartitionIndex(d) == 1
            && Keyframe(fixed + DescriptorBytes(d) + [0x02]) && !IsKeyframeStart(d, [0x02])
  {
    var d := Descriptor(0x11, None);
    KeyframeIs(fixed, [], [], d, [0x02]);
    assert fixed + [] + [] + DescriptorBytes(d) + [0x02] == fixed + DescriptorBytes(d) + [0x02];
  }
}
