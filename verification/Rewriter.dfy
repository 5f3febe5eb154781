/**
 The push-to-talk rewriter: packets of successive speakers leave as one RTP stream with a
 fixed SSRC and continuous sequence numbers and timestamps.
 */
module Rewriter {
  import opened Words

  datatype RewriteResult = Ok | PendingKeyframe | Skip

  /** What is fixed when a room is created. */
  datatype Config = Config(ssrc: u32, tsGuardGap: u32, requireKeyframe: bool)

  const TS_GUARD_GAP_AUDIO: u32 := 960
  const TS_GUARD_GAP_VIDEO: u32 := 3000

  datatype State = State(
    speaker: Option<string>,
    originSeq: u16, originTs: u32,
    baseSeq: u16, baseTs: u32,
    lastSeq: u16, lastTs: u32,
    awaitingFirst: bool, pendingKeyframe: bool)

  const START := State(None, 0, 0, 0, 0, 0, 0, false, false)

  function Switched(c: Config, s: State, user: string): State
  {
    s.(speaker := Some(user), awaitingFirst := true, pendingKeyframe := c.requireKeyframe)
  }

  function Cleared(s: State): State
  {
    s.(speaker := None, awaitingFirst := false, pendingKeyframe := false)
  }

  /** The reference points after a packet is let through: taken from it if it is the first. */
  function Based(c: Config, s: State, seqNo: u16, ts: u32): State
  {
    var s := s.(pendingKeyframe := false);
    if s.awaitingFirst then
      s.(originSeq := seqNo, originTs := ts,
         baseSeq := Add16(s.lastSeq, 1), baseTs := Add32(s.lastTs, c.tsGuardGap), awaitingFirst := false)
    else s
  }

  function VirtualSeq(s: State, seqNo: u16): u16 { Add16(Sub16(seqNo, s.originSeq), s.baseSeq) }

  function VirtualTs(s: State, ts: u32): u32 { Add32(Sub32(ts, s.originTs), s.baseTs) }

  /** The original number a virtual one stands for under the current reference points. */
  function ReverseSeq(s: State, virtualSeq: u16): u16 { Add16(Sub16(virtualSeq, s.baseSeq), s.originSeq) }

  function WithMarker(octet: u8): u8 { if HighBit(octet) then octet else octet + 0x80 }

  /** The marker is the top bit of the second octet; the payload type below it stays. */
  lemma MarkerIs(octet: u8)
    ensures WithMarker(octet) / 0x80 == 1 && WithMarker(octet) % 0x80 == octet % 0x80
  {
  }

  /** A packet under other sequence number, timestamp and SSRC, optionally with the marker bit. */
  function Stamped(p: seq<u8>, seqNo: u16, ts: u32, ssrc: u32, mark: bool): (r: seq<u8>)
    requires |p| >= 12
    ensures |r| == |p| && r[0] == p[0] && r[12..] == p[12..]
    ensures r[1] == if mark then WithMarker(p[1]) else p[1]
    ensures Be16(r, 2) == seqNo && Be32(r, 4) == ts && Be32(r, 8) == ssrc
  {
    var r := [p[0], if mark then WithMarker(p[1]) else p[1]] + Bytes16(seqNo) + Bytes32(ts) + Bytes32(ssrc) + p[12..];
    assert r[2..4] == Bytes16(seqNo) && r[4..8] == Bytes32(ts) && r[8..12] == Bytes32(ssrc);
    assert Be16(r, 2) == Be16(r[2..4], 0) && Be32(r, 4) == Be32(r[4..8], 0) && Be32(r, 8) == Be32(r[8..12], 0);
    r
  }

  lemma StampedIs(r: seq<u8>, p: seq<u8>, seqNo: u16, ts: u32, ssrc: u32, mark: bool)
    requires |r| == |p| >= 12 && r[0] == p[0] && r[1] == if mark then WithMarker(p[1]) else p[1]
    requires r[2..4] == Bytes16(seqNo) && r[4..8] == Bytes32(ts) && r[8..12] == Bytes32(ssrc) && r[12..] == p[12..]
    ensures r == Stamped(p, seqNo, ts, ssrc, mark)
  {
    assert r == r[..2] + r[2..4] + r[4..8] + r[8..12] + r[12..];
    assert r[..2] == [p[0], if mark then WithMarker(p[1]) else p[1]];
  }

  /** The state after a packet with this number and timestamp was let through. */
  function Accepted(c: Config, s: State, seqNo: u16, ts: u32): State
  {
    var b := Based(c, s, seqNo, ts);
    b.(lastSeq := VirtualSeq(b, seqNo), lastTs := VirtualTs(b, ts))
  }

  /** Whether a packet of `sender` is let through, and why not otherwise. */
  function Verdict(s: State, p: seq<u8>, sender: string, keyframe: bool): RewriteResult
  {
    if |p| < 12 || s.speaker != Some(sender) then Skip
    else if s.pendingKeyframe && !keyframe then PendingKeyframe
    else Ok
  }

  function Advanced(c: Config, s: State, p: seq<u8>, sender: string, keyframe: bool): State
  {
    if Verdict(s, p, sender, keyframe) != Ok then s else Accepted(c, s, Be16(p, 2), Be32(p, 4))
  }

  function Output(c: Config, s: State, p: seq<u8>, sender: string, keyframe: bool): (r: seq<u8>)
    ensures |r| == |p|
  {
    if Verdict(s, p, sender, keyframe) != Ok then p
    else
      var s' := Accepted(c, s, Be16(p, 2), Be32(p, 4));
      Stamped(p, s'.lastSeq, s'.lastTs, c.ssrc, s.awaitingFirst)
  }

  class PttRewriter {
    const virtualSsrc: u32
    const tsGuardGap: u32
    const requireKeyframe: bool
    var speaker: Option<string>
    var originBaseSeq: u16
    var originBaseTs: u32
    var virtualBaseSeq: u16
    var virtualBaseTs: u32
    var lastVirtualSeq: u16
    var lastVirtualTs: u32
    var awaitingFirstPacket: bool
    var pendingKeyframe: bool

    function Setup(): Config { Config(virtualSsrc, tsGuardGap, requireKeyframe) }

    ghost function View(): State
      reads this
    {
      State(speaker, originBaseSeq, originBaseTs, virtualBaseSeq, virtualBaseTs,
            lastVirtualSeq, lastVirtualTs, awaitingFirstPacket, pendingKeyframe)
    }

    constructor (ssrc: u32, gap: u32, keyframes: bool)
      ensures View() == START && Setup() == Config(ssrc, gap, keyframes)
    {
      virtualSsrc, tsGuardGap, requireKeyframe := ssrc, gap, keyframes;
      speaker, awaitingFirstPacket, pendingKeyframe := None, false, false;
      originBaseSeq, originBaseTs, virtualBaseSeq, virtualBaseTs := 0, 0, 0, 0;
      lastVirtualSeq, lastVirtualTs := 0, 0;
    }

    method SwitchSpeaker(user: string)
      modifies this
      ensures View() == Switched(Setup(), old(View()), user)
    {
      speaker := Some(user);
      awaitingFirstPacket := true;
      pendingKeyframe := requireKeyframe;
    }

    method ClearSpeaker()
      modifies this
      ensures View() == Cleared(old(View()))
    {
      speaker := None;
      awaitingFirstPacket := false;
      pendingKeyframe := false;
    }

    /** Overwrites SSRC, sequence number and timestamp in place, and sets the marker of a first packet. */
    method Stamp(plaintext: array<u8>, virtualSeq: u16, virtualTs: u32, isFirst: bool)
      requires plaintext.Length >= 12
      modifies plaintext
      ensures plaintext[..] == Stamped(old(plaintext[..]), virtualSeq, virtualTs, virtualSsrc, isFirst)
    {
      ghost var p := plaintext[..];
      Overwrite(plaintext, 8, Bytes32(virtualSsrc));
      Overwrite(plaintext, 2, Bytes16(virtualSeq));
      Overwrite(plaintext, 4, Bytes32(virtualTs));
      if isFirst {
        plaintext[1] := WithMarker(plaintext[1]);
      }
      ghost var r := plaintext[..];
      assert r[0] == p[0] && r[1] == if isFirst then WithMarker(p[1]) else p[1];
      assert r[2..4] == Bytes16(virtualSeq) && r[4..8] == Bytes32(virtualTs) && r[8..12] == Bytes32(virtualSsrc);
      assert r[12..] == p[12..];
      StampedIs(r, p, virtualSeq, virtualTs, virtualSsrc, isFirst);
    }

    static method Overwrite(a: array<u8>, at: nat, bytes: seq<u8>)
      requires at + |bytes| <= a.Length
      modifies a
      ensures forall i :: 0 <= i < a.Length ==> a[i] == if at <= i < at + |bytes| then bytes[i - at] else old(a[i])
    {
      for k := 0 to |bytes|
        invariant forall i :: 0 <= i < a.Length ==> a[i] == if at <= i < at + k then bytes[i - at] else old(a[i])
      {
        a[at + k] := bytes[k];
      }
    }

    /** Takes a packet's number and timestamp through the offsets, setting them up if it is the first. */
    method Track(origSeq: u16, origTs: u32) returns (virtualSeq: u16, virtualTs: u32, isFirst: bool)
      requires !pendingKeyframe
      modifies this
      ensures View() == Accepted(Setup(), old(View()), origSeq, origTs)
      ensures virtualSeq == lastVirtualSeq && virtualTs == lastVirtualTs && isFirst == old(awaitingFirstPacket)
    {
      isFirst := awaitingFirstPacket;
      if isFirst {
        originBaseSeq := origSeq;
        originBaseTs := origTs;
        virtualBaseSeq := Add16(lastVirtualSeq, 1);
        virtualBaseTs := Add32(lastVirtualTs, tsGuardGap);
        awaitingFirstPacket := false;
      }
      virtualSeq := Add16(Sub16(origSeq, originBaseSeq), virtualBaseSeq);
      virtualTs := Add32(Sub32(origTs, originBaseTs), virtualBaseTs);
      lastVirtualSeq := virtualSeq;
      lastVirtualTs := virtualTs;
    }

    /** Rewrites the packet in place; a packet not let through is left alone, and so is the state. */
    method Rewrite(plaintext: array<u8>, sender: string, isKeyframe: bool) returns (r: RewriteResult)
      modifies this, plaintext
      ensures r == Verdict(old(View()), old(plaintext[..]), sender, isKeyframe)
      ensures View() == Advanced(Setup(), old(View()), old(plaintext[..]), sender, isKeyframe)
      ensures plaintext[..] == Output(Setup(), old(View()), old(plaintext[..]), sender, isKeyframe)
    {
      if plaintext.Length < 12 {
        return Skip;
      }
      if speaker != Some(sender) {
        return Skip;
      }
      if pendingKeyframe {
        if isKeyframe {
          pendingKeyframe := false;
        } else {
          return PendingKeyframe;
        }
      }
      var virtualSeq, virtualTs, isFirst := Track(Be16(plaintext[..], 2), Be32(plaintext[..], 4));
      Stamp(plaintext, virtualSeq, virtualTs, isFirst);
      r := Ok;
    }

    method Reverse(virtualSeq: u16) returns (seqNo: u16)
      ensures seqNo == ReverseSeq(View(), virtualSeq)
    {
      seqNo := Add16(Sub16(virtualSeq, virtualBaseSeq), originBaseSeq);
    }
  }

  /**
   A packet of anybody but the speaker, one shorter than an RTP header, and an inter frame while a
   keyframe is awaited change nothing; any other packet leaves under the room's SSRC.
   */
  lemma PassesIff(c: Config, s: State, p: seq<u8>, sender: string, keyframe: bool)
    ensures var out := Output(c, s, p, sender, keyframe);
            if |p| >= 12 && s.speaker == Some(sender) && (keyframe || !s.pendingKeyframe)
            then |out| >= 12 && Be32(out, 8) == c.ssrc && !Advanced(c, s, p, sender, keyframe).pendingKeyframe
            else out == p && Advanced(c, s, p, sender, keyframe) == s
    ensures |p| < 12 || s.speaker != Some(sender) <==> Verdict(s, p, sender, keyframe) == Skip
  {
  }

  /** Mapping a number to its virtual one and back is the identity under the same reference points. */
  lemma ReverseInverts(s: State, n: u16)
    ensures ReverseSeq(s, VirtualSeq(s, n)) == n
    ensures VirtualSeq(s, ReverseSeq(s, n)) == n
  {
  }

  /** Under the same reference points distances between numbers and between timestamps are kept. */
  lemma DistancesKept(s: State, m: u16, n: u16, t: u32, u: u32)
    ensures Sub16(VirtualSeq(s, n), VirtualSeq(s, m)) == Sub16(n, m)
    ensures Sub32(VirtualTs(s, u), VirtualTs(s, t)) == Sub32(u, t)
  {
  }

  /** A first packet leaves one number and one guard gap after the last one, whatever its own number. */
  lemma FirstAccepted(c: Config, s: State, n: u16, t: u32)
    requires s.awaitingFirst
    ensures var s' := Accepted(c, s, n, t);
            && s'.lastSeq == Add16(s.lastSeq, 1) && s'.lastTs == Add32(s.lastTs, c.tsGuardGap)
            && s'.lastSeq == VirtualSeq(s', n) && s'.lastTs == VirtualTs(s', t)
  {
  }

  /** A later packet leaves the reference points alone. */
  lemma LaterAccepted(c: Config, s: State, n: u16, t: u32, m: u16, u: u32)
    requires !s.awaitingFirst && s.lastSeq == VirtualSeq(s, m) && s.lastTs == VirtualTs(s, u)
    ensures var s' := Accepted(c, s, n, t);
            && Sub16(s'.lastSeq, s.lastSeq) == Sub16(n, m) && Sub32(s'.lastTs, s.lastTs) == Sub32(t, u)
            && s'.lastSeq == VirtualSeq(s', n) && s'.lastTs == VirtualTs(s', t)
  {
    DistancesKept(s, m, n, u, t);
  }
}
