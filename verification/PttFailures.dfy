/** Push-to-talk rooms that go wrong, each a concrete run. */
module PttFailures {
  import opened Words
  import opened Ring
  import opened Ptt
  import opened PttNack
  import Floor
  import PttRoom
  import Rewriter
  import Rtcp
  import RtpCache
  import Vp8

  /** A VP8 packet that starts a frame, a key frame or not. */
  function Picture(n: u16, key: bool): (p: seq<u8>)
    ensures |p| == 14 && PayloadType(p) == PT_VIDEO && Be16(p, 2) == n && (Vp8.Keyframe(p) <==> key)
  {
    var p := [0x80, 96] + Bytes16(n) + Zeros(8) + [0x10, if key then 0 else 1];
    assert p[2..4] == Bytes16(n) && Be16(p, 2) == Be16(p[2..4], 0);
    assert p[12..] == [0x10, if key then 0 else 1];
    p
  }

  /** A user joins, announces a video track and takes the floor. */
  function Enters(user: string, ssrc: u32, now: nat): seq<Event>
  {
    [Join(user)] + [Publish(user, ssrc, true)] + [FloorRequest(user, now)]
  }

  function FirstAsks(): seq<Event> { Enters("a", 10, 0) }

  /** The first speaker's key frame leaves; the second speaker has the floor. */
  function SecondAsks(): seq<Event>
  {
    FirstAsks() + [Rtp("a", Picture(10, true))] + [FloorRelease("a")] + Enters("b", 20, 1)
  }

  /** The second speaker's first packet is no key frame, the next one is. */
  function BothSpoke(): seq<Event>
  {
    SecondAsks() + [Rtp("b", Picture(99, false))] + [Rtp("b", Picture(100, true))]
  }

  /** Push-to-talk, video waiting for key frames, room for two. */
  ghost predicate Usual(setup: Setup) { setup.ptt && setup.video.requireKeyframe && setup.capacity >= 2 }

  /** The user has the floor, one video track, nothing cached, and the rewriter waits for a key frame. */
  ghost predicate HasTheFloor(s: Room, user: string, ssrc: u32, lastSeq: u16)
  {
    && Floor.HeldBy(s.floor, user) && user in s.members
    && s.members[user].tracks == [Track(ssrc, true, Some(Add32(ssrc, 1000)))] && s.members[user].cache == []
    && s.video.speaker == Some(user) && s.video.awaitingFirst && s.video.pendingKeyframe && s.video.lastSeq == lastSeq
  }

  lemma Enter(setup: Setup, es: seq<Event>, user: string, ssrc: u32, now: nat)
    requires setup.ptt && setup.video.requireKeyframe
    requires user !in Run(setup, es).members && |Run(setup, es).members| < setup.capacity
    requires Run(setup, es).floor == Floor.Idle
    ensures HasTheFloor(Run(setup, es + Enters(user, ssrc, now)), user, ssrc, Run(setup, es).video.lastSeq)
    ensures Run(setup, es + Enters(user, ssrc, now)).members.Keys == Run(setup, es).members.Keys + {user}
  {
    var e1 := es + [Join(user)];
    RunOne(setup, es, Join(user));
    PttRoom.JoinStep(setup, Run(setup, es), user);
    var e2 := e1 + [Publish(user, ssrc, true)];
    RunOne(setup, e1, Publish(user, ssrc, true));
    PttRoom.PublishStep(setup, Run(setup, e1), user, ssrc, true);
    RunOne(setup, e2, FloorRequest(user, now));
    PttRoom.FloorStep(setup, Run(setup, e2), FloorRequest(user, now), Floor.Request(user), now);
    assert es + Enters(user, ssrc, now) == e2 + [FloorRequest(user, now)];
  }

  /** A first key frame leaves one number after the last. */
  lemma KeyFrameLeaves(setup: Setup, es: seq<Event>, user: string, n: u16)
    requires setup.ptt && user in Run(setup, es).members && Floor.HeldBy(Run(setup, es).floor, user)
    requires Run(setup, es).video.speaker == Some(user) && Run(setup, es).video.awaitingFirst
    ensures var s := Run(setup, es);
            var s' := Run(setup, es + [Rtp(user, Picture(n, true))]);
            var out := Forward(setup, s, user, Picture(n, true));
            && out.Some? && |out.value| == 14 && Be16(out.value, 2) == Add16(s.video.lastSeq, 1)
            && s'.floor == s.floor && s'.members.Keys == s.members.Keys
               && s'.members[user].tracks == s.members[user].tracks
            && s'.members[user].cache == s.members[user].cache + [Stored(n, Picture(n, true))]
            && s'.video.originSeq == n && s'.video.baseSeq == s'.video.lastSeq == Add16(s.video.lastSeq, 1)
  {
    RunOne(setup, es, Rtp(user, Picture(n, true)));
    PttRoom.RtpStep(setup, Run(setup, es), user, Picture(n, true));
  }

  /** An inter frame is cached and dropped while a key frame is awaited. */
  lemma InterFrameStays(setup: Setup, es: seq<Event>, user: string, n: u16)
    requires setup.ptt && user in Run(setup, es).members && Floor.HeldBy(Run(setup, es).floor, user)
    requires Run(setup, es).video.speaker == Some(user) && Run(setup, es).video.pendingKeyframe
    ensures var s := Run(setup, es);
            var s' := Run(setup, es + [Rtp(user, Picture(n, false))]);
            && Forward(setup, s, user, Picture(n, false)).None?
            && s'.floor == s.floor && s'.members.Keys == s.members.Keys
               && s'.members[user].tracks == s.members[user].tracks
            && s'.members[user].cache == s.members[user].cache + [Stored(n, Picture(n, false))] && s'.video == s.video
  {
    RunOne(setup, es, Rtp(user, Picture(n, false)));
    PttRoom.RtpStep(setup, Run(setup, es), user, Picture(n, false));
  }

  lemma FirstHasFloor(setup: Setup)
    requires Usual(setup)
    ensures HasTheFloor(Run(setup, FirstAsks()), "a", 10, 0) && Run(setup, FirstAsks()).members.Keys == {"a"}
  {
    assert |Run(setup, []).members| == 0;
    Enter(setup, [], "a", 10, 0);
    assert [] + Enters("a", 10, 0) == FirstAsks();
  }

  lemma OneMember(m: map<string, Member>)
    requires m.Keys == {"a"}
    ensures |m| == 1
  {
    assert |m| == |m.Keys|;
  }

  lemma SecondHasFloor(setup: Setup)
    requires Usual(setup)
    ensures HasTheFloor(Run(setup, FirstAsks()), "a", 10, 0) && HasTheFloor(Run(setup, SecondAsks()), "b", 20, 1)
  {
    FirstHasFloor(setup);
    KeyFrameLeaves(setup, FirstAsks(), "a", 10);
    var e4 := FirstAsks() + [Rtp("a", Picture(10, true))];
    Releases(setup, e4, "a");
    OneMember(Run(setup, e4 + [FloorRelease("a")]).members);
    Enter(setup, e4 + [FloorRelease("a")], "b", 20, 1);
  }

  lemma Releases(setup: Setup, es: seq<Event>, user: string)
    requires setup.ptt && Floor.HeldBy(Run(setup, es).floor, user)
    ensures var s, s' := Run(setup, es), Run(setup, es + [FloorRelease(user)]);
            s'.floor == Floor.Idle && s'.members == s.members && s'.video.lastSeq == s.video.lastSeq
  {
    RunOne(setup, es, FloorRelease(user));
    PttRoom.FloorStep(setup, Run(setup, es), FloorRelease(user), Floor.Release(user), 0);
  }

  /**
   The key frame of "a" left as number 1. After "b" has spoken a NACK for 1 is answered with a
   packet of "b" that never left: the inter frame dropped while a key frame was awaited.
   */
  lemma AnotherPacketAnswers(setup: Setup)
    requires Usual(setup)
    ensures var out := Forward(setup, Run(setup, FirstAsks()), "a", Picture(10, true));
            out.Some? && |out.value| == 14 && Be16(out.value, 2) == 1
    ensures Forward(setup, Run(setup, SecondAsks()), "b", Picture(99, false)).None?
    ensures var s := Run(setup, BothSpoke());
            && HoldsWithVideo(s, "b")
            && Answer(setup, s, s.members["b"], setup.video.ssrc, 1) == Some(Picture(99, false))
  {
    SecondHasFloor(setup);
    KeyFrameLeaves(setup, FirstAsks(), "a", 10);
    InterFrameStays(setup, SecondAsks(), "b", 99);
    KeyFrameLeaves(setup, SecondAsks() + [Rtp("b", Picture(99, false))], "b", 100);
    AnswersFromCache(setup, Run(setup, BothSpoke()));
  }

  lemma AnswersFromCache(setup: Setup, s: Room)
    requires setup.ptt && Floor.HeldBy(s.floor, "b") && "b" in s.members
    requires s.members["b"].tracks == [Track(20, true, Some(1020))] && s.video.originSeq == 100 && s.video.baseSeq == 2
    requires s.members["b"].cache == [] + [Stored(99, Picture(99, false))] + [Stored(100, Picture(100, true))]
    ensures HoldsWithVideo(s, "b")
    ensures Answer(setup, s, s.members["b"], setup.video.ssrc, 1) == Some(Picture(99, false))
  {
    assert Rewriter.ReverseSeq(s.video, 1) == 99;
    HeldIsNewest(s.members["b"].cache, RtpCache.RTP_CACHE_SIZE, 0);
  }

  // --- two members announce one SSRC ---

  /** The speaker's key frame leaves; a listener announces the speaker's SSRC as its own. */
  function SharedSsrc(): seq<Event>
  {
    FirstAsks() + [Rtp("a", Picture(10, true))] + [Join("b")] + [Publish("b", 10, true)]
  }

  lemma SharedSsrcState(setup: Setup)
    requires Usual(setup)
    ensures var s := Run(setup, SharedSsrc());
            && Floor.HeldBy(s.floor, "a") && s.members.Keys == {"a", "b"}
            && s.members["a"].tracks == [Track(10, true, Some(1010))]
            && s.members["a"].cache == [Stored(10, Picture(10, true))]
            && s.members["b"] == Member([Track(10, true, Some(1010))], [], 1, 0)
            && s.video.originSeq == 10 && s.video.baseSeq == 1
  {
    FirstHasFloor(setup);
    KeyFrameLeaves(setup, FirstAsks(), "a", 10);
    var e1 := FirstAsks() + [Rtp("a", Picture(10, true))];
    OneMember(Run(setup, e1).members);
    RunOne(setup, e1, Join("b"));
    PttRoom.JoinStep(setup, Run(setup, e1), "b");
    RunOne(setup, e1 + [Join("b")], Publish("b", 10, true));
    PttRoom.PublishStep(setup, Run(setup, e1 + [Join("b")]), "b", 10, true);
  }

  lemma OnlyFirstLost(n: u16)
    ensures Rtcp.Lost(1, 0, n) <==> n == 1
  {
    Rtcp.StepsAway(1, n, 0);
    assert forall i: nat :: !Rtcp.BitSet(0, i);
  }

  /**
   The holder's cache has the key frame that left as number 1, and yet a reply the scan of the
   members allows carries nothing: the other owner of the SSRC was asked.
   */
  lemma OtherOwnerIsAsked(setup: Setup)
    requires Usual(setup)
    ensures var s := Run(setup, SharedSsrc());
            && HoldsWithVideo(s, "a")
            && Answer(setup, s, s.members["a"], setup.video.ssrc, 1) == Some(Picture(10, true))
            && PttRoom.Answers(setup, s, Rtcp.NackItem(setup.video.ssrc, 1, 0), PttRoom.Reply(Some("b"), [1], []))
  {
    SharedSsrcState(setup);
    var s := Run(setup, SharedSsrc());
    assert Rewriter.ReverseSeq(s.video, 1) == 10;
    HeldIsNewest(s.members["a"].cache, RtpCache.RTP_CACHE_SIZE, 0);
    forall n: u16 ensures n in [1] <==> Rtcp.Lost(1, 0, n) {
      OnlyFirstLost(n);
    }
    NothingResent(setup, s);
  }

  lemma NothingResent(setup: Setup, s: Room)
    requires "b" in s.members && s.members["b"].cache == []
    ensures PttRoom.Resends(setup, s, s.members["b"], setup.video.ssrc, [1]) == []
  {
    var m, ssrc := s.members["b"], LookupSsrc(setup, s, setup.video.ssrc);
    var seqs := PttRoom.LookupSeqs(setup, s, setup.video.ssrc, [1]);
    if TrackOf(m.tracks, ssrc).Some? && TrackOf(m.tracks, ssrc).value.rtxSsrc.Some? {
      var rtx := TrackOf(m.tracks, ssrc).value.rtxSsrc.value;
      assert RtpCache.CacheGet(m.cache, seqs[0]).None?;
      assert PttRoom.RtxList(m.cache, rtx, m.rtxSeq, seqs, 0) == [];
      assert PttRoom.RtxList(m.cache, rtx, m.rtxSeq, seqs, 1) == [];
    }
  }

  // --- the holder asks again ---

  /** An inter frame of the holder leaves, and no longer does once the holder has asked for the floor again. */
  lemma AskingAgainStopsVideo(setup: Setup)
    requires Usual(setup)
    ensures var es := FirstAsks() + [Rtp("a", Picture(10, true))];
            && Forward(setup, Run(setup, es), "a", Picture(11, false)).Some?
            && Forward(setup, Run(setup, es + [FloorRequest("a", 1)]), "a", Picture(11, false)).None?
  {
    var es := FirstAsks() + [Rtp("a", Picture(10, true))];
    FirstHasFloor(setup);
    KeyFrameLeaves(setup, FirstAsks(), "a", 10);
    KeyFrameStarts(setup, FirstAsks(), "a", 10);
    RepeatedRequestStopsVideo(setup, es, "a", 1, [], "a", Picture(11, false));
    assert es + [FloorRequest("a", 1)] + [] == es + [FloorRequest("a", 1)];
  }

  lemma KeyFrameStarts(setup: Setup, es: seq<Event>, user: string, n: u16)
    requires setup.ptt && user in Run(setup, es).members && Floor.HeldBy(Run(setup, es).floor, user)
    requires Run(setup, es).video.speaker == Some(user) && Run(setup, es).video.awaitingFirst
    ensures var s' := Run(setup, es + [Rtp(user, Picture(n, true))]);
            s'.video.speaker == Some(user) && !s'.video.pendingKeyframe
  {
    RunOne(setup, es, Rtp(user, Picture(n, true)));
    PttRoom.RtpStep(setup, Run(setup, es), user, Picture(n, true));
  }

  // --- restored from RTX ---

  /** The key frame that left as number 1 is restored from its RTX form as number 10. */
  lemma RestoredIsAnother(setup: Setup, rtxSsrc: u32, rtxSeq: u16)
    requires Usual(setup)
    ensures var out := Forward(setup, Run(setup, FirstAsks()), "a", Picture(10, true));
            var rtx := Rtcp.RtxBytes(Picture(10, true), rtxSsrc, rtxSeq);
            && out.Some? && |out.value| == 14 && Be16(out.value, 2) == 1
            && |rtx| >= 14 && |rtx| >= Rtcp.HeaderLength(rtx) + 2
            && var restored := Rtcp.Restore(rtx, out.value[1], out.value[8..12]);
               |restored| == 14 && Be16(restored, 2) == 10 && restored != out.value
  {
    FirstHasFloor(setup);
    KeyFrameLeaves(setup, FirstAsks(), "a", 10);
    AlwaysAgree(setup, FirstAsks());
    assert Rtcp.HeaderLength(Picture(10, true)) == 12;
    PttRoom.RestoredIsSentIff(setup, Run(setup, FirstAsks()), "a", Picture(10, true), rtxSsrc, rtxSeq);
    RestoredNumber(Picture(10, true), rtxSsrc, rtxSeq,
                   Forward(setup, Run(setup, FirstAsks()), "a", Picture(10, true)).value);
  }

  lemma RestoredNumber(p: seq<u8>, rtxSsrc: u32, rtxSeq: u16, out: seq<u8>)
    requires |p| == |out| == 14 && Rtcp.HeaderLength(p) == 12
    ensures var rtx := Rtcp.RtxBytes(p, rtxSsrc, rtxSeq);
            && |rtx| >= 14 && |rtx| >= Rtcp.HeaderLength(rtx) + 2
            && |Rtcp.Restore(rtx, out[1], out[8..12])| == 14
            && Be16(Rtcp.Restore(rtx, out[1], out[8..12]), 2) == Be16(p, 2)
  {
    Rtcp.RtxParts(p, rtxSsrc, rtxSeq);
    var rtx := Rtcp.RtxBytes(p, rtxSsrc, rtxSeq);
    var restored := Rtcp.Restore(rtx, out[1], out[8..12]);
    assert restored[2..4] == rtx[12..14] == p[2..4];
    assert Be16(restored, 2) == Be16(restored[2..4], 0) && Be16(p, 2) == Be16(p[2..4], 0);
  }

  // --- two video tracks of one member ---

  function VideoOf(ssrc: u32, n: u16): (p: seq<u8>)
    ensures |p| == 12 && PayloadType(p) == PT_VIDEO && Be16(p, 2) == n && Be32(p, 8) == ssrc
  {
    var p := [0x80, 96] + Bytes16(n) + Zeros(4) + Bytes32(ssrc);
    assert p[2..4] == Bytes16(n) && Be16(p, 2) == Be16(p[2..4], 0);
    assert p[8..12] == Bytes32(ssrc) && Be32(p, 8) == Be32(p[8..12], 0);
    p
  }

  /** One member with two video tracks, each of which sends a packet with number 5. */
  function TwoTracks(): seq<Event>
  {
    [Join("a")] + [Publish("a", 10, true)] + [Publish("a", 20, true)] +
    [Rtp("a", VideoOf(10, 5))] + [Rtp("a", VideoOf(20, 5))]
  }

  lemma TwoTracksState(setup: Setup)
    requires !setup.ptt && setup.capacity >= 1
    ensures var s := Run(setup, TwoTracks());
            && "a" in s.members
            && s.members["a"].tracks == [Track(10, true, Some(1010)), Track(20, true, Some(1021))]
            && s.members["a"].cache == [Stored(5, VideoOf(10, 5)), Stored(5, VideoOf(20, 5))]
  {
    assert |Run(setup, []).members| == 0;
    RunOne(setup, [], Join("a"));
    assert [] + [Join("a")] == [Join("a")];
    PttRoom.JoinStep(setup, Run(setup, []), "a");
    var e1 := [Join("a")];
    RunOne(setup, e1, Publish("a", 10, true));
    PttRoom.PublishStep(setup, Run(setup, e1), "a", 10, true);
    var e2 := e1 + [Publish("a", 10, true)];
    RunOne(setup, e2, Publish("a", 20, true));
    PttRoom.PublishStep(setup, Run(setup, e2), "a", 20, true);
    var e3 := e2 + [Publish("a", 20, true)];
    RunOne(setup, e3, Rtp("a", VideoOf(10, 5)));
    PttRoom.RtpStep(setup, Run(setup, e3), "a", VideoOf(10, 5));
    var e4 := e3 + [Rtp("a", VideoOf(10, 5))];
    RunOne(setup, e4, Rtp("a", VideoOf(20, 5)));
    PttRoom.RtpStep(setup, Run(setup, e4), "a", VideoOf(20, 5));
  }

  /** A NACK for number 5 of the first track is answered with number 5 of the second. */
  lemma OtherTrackAnswers(setup: Setup)
    requires !setup.ptt && setup.capacity >= 1
    ensures var s := Run(setup, TwoTracks());
            && "a" in s.members && TrackOf(s.members["a"].tracks, 10).Some?
            && Answer(setup, s, s.members["a"], 10, 5) == Some(VideoOf(20, 5)) && Be32(VideoOf(20, 5), 8) == 20
  {
    TwoTracksState(setup);
    HeldIsNewest(Run(setup, TwoTracks()).members["a"].cache, RtpCache.RTP_CACHE_SIZE, 1);
  }
}
