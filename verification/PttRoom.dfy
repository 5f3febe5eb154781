/**
 The push-to-talk room as the program keeps it: objects updated in place, proved to move as the
 value machine does.
 */
module PttRoom {
  import opened Words
  import opened Ptt
  import opened PttNack
  import Floor
  import HubModel
  import Rewriter
  import Rtcp
  import Ring
  import RtpCache
  import Vp8

  function RtxFor(log: seq<Ring.Stored<seq<u8>>>, rtxSsrc: u32, rtxSeq: u16, n: u16): Option<seq<u8>>
  {
    match RtpCache.CacheGet(log, n)
    case Some(q) => Some(Rtcp.RtxBytes(q, rtxSsrc, rtxSeq))
    case None => None
  }

  /** RTX packets for those of the first `n` numbers that are cached, numbered on from `first`. */
  function RtxList(log: seq<Ring.Stored<seq<u8>>>, rtxSsrc: u32, first: u16, seqs: seq<u16>, n: nat): seq<seq<u8>>
    requires n <= |seqs|
  {
    if n == 0 then []
    else
      var r := RtxList(log, rtxSsrc, first, seqs, n - 1);
      match RtxFor(log, rtxSsrc, Wrap16(first + |r|), seqs[n - 1])
      case Some(packet) => r + [packet]
      case None => r
  }

  lemma NextNumber(first: u16, n: nat)
    ensures Add16(Wrap16(first + n), 1) == Wrap16(first + (n + 1))
  {
    Wrap16Add(first + n, 1);
  }

  /** Packet `k` is the RTX form, under the `k`-th RTX number, of what the cache has for one of the numbers. */
  lemma {:induction false} ResentIsCached(log: seq<Ring.Stored<seq<u8>>>, rtxSsrc: u32, first: u16, seqs: seq<u16>,
                                          n: nat, k: nat) returns (i: nat)
    requires n <= |seqs| && k < |RtxList(log, rtxSsrc, first, seqs, n)|
    ensures i < n && RtxFor(log, rtxSsrc, Wrap16(first + k), seqs[i]) == Some(RtxList(log, rtxSsrc, first, seqs, n)[k])
    decreases n
  {
    if k < |RtxList(log, rtxSsrc, first, seqs, n - 1)| {
      i := ResentIsCached(log, rtxSsrc, first, seqs, n - 1, k);
    } else {
      i := n - 1;
    }
  }

  /** Every number the cache has is resent. */
  lemma {:induction false} CachedIsResent(log: seq<Ring.Stored<seq<u8>>>, rtxSsrc: u32, first: u16, seqs: seq<u16>,
                                          n: nat, i: nat) returns (k: nat)
    requires i < n <= |seqs| && RtpCache.CacheGet(log, seqs[i]).Some?
    ensures k < |RtxList(log, rtxSsrc, first, seqs, n)|
    ensures RtxFor(log, rtxSsrc, Wrap16(first + k), seqs[i]) == Some(RtxList(log, rtxSsrc, first, seqs, n)[k])
    decreases n
  {
    if i < n - 1 {
      k := CachedIsResent(log, rtxSsrc, first, seqs, n - 1, i);
    } else {
      k := |RtxList(log, rtxSsrc, first, seqs, n - 1)|;
    }
  }

  class Publisher {
    const userId: string
    const cache: RtpCache.RtpCache
    var tracks: seq<Track>
    var rtxSsrcCounter: u32
    var rtxSeq: u16

    ghost function Footprint(): set<object> { {this, cache, cache.slots} }

    ghost predicate Valid()
      reads Footprint()
    {
      cache.Valid()
    }

    ghost function View(): Member
      reads Footprint()
    {
      Member(tracks, cache.log, rtxSsrcCounter, rtxSeq)
    }

    constructor (user: string)
      ensures Valid() && fresh(Footprint()) && userId == user
      ensures View() == Member([], [], 0, 0)
    {
      userId := user;
      tracks, rtxSsrcCounter, rtxSeq := [], 0, 0;
      cache := new RtpCache.RtpCache();
    }

    method AddTrack(ssrc: u32, video: bool)
      requires Valid()
      modifies this
      ensures Valid() && View() == Ptt.AddTrack(old(View()), ssrc, video)
    {
      if exists i :: 0 <= i < |tracks| && tracks[i].ssrc == ssrc {
        return;
      }
      var rtx := None;
      if video {
        var offset := rtxSsrcCounter;
        rtxSsrcCounter := Add32(rtxSsrcCounter, 1);
        rtx := Some(Add32(Add32(ssrc, 1000), offset));
      }
      tracks := tracks + [Track(ssrc, video, rtx)];
    }

    /** Keeps a video packet for retransmission. */
    method Keep(plaintext: seq<u8>)
      requires Valid()
      modifies cache, cache.slots
      ensures Valid() && View() == Caching(old(View()), plaintext)
    {
      if PayloadType(plaintext) == PT_VIDEO {
        cache.Store(Be16(plaintext, 2), plaintext);
      }
    }

    method NextRtxSeq() returns (n: u16)
      requires Valid()
      modifies this
      ensures Valid() && n == old(rtxSeq) && View() == old(View()).(rtxSeq := Add16(n, 1))
    {
      n := rtxSeq;
      rtxSeq := Add16(rtxSeq, 1);
    }

    /** Looks one number up and wraps what is found for retransmission, under the next RTX number. */
    method ResendOne(rtxSsrc: u32, seqNo: u16) returns (packet: Option<seq<u8>>)
      requires Valid()
      modifies this
      ensures Valid() && tracks == old(tracks) && rtxSsrcCounter == old(rtxSsrcCounter)
      ensures packet == RtxFor(cache.log, rtxSsrc, old(rtxSeq), seqNo)
      ensures rtxSeq == if packet.Some? then Add16(old(rtxSeq), 1) else old(rtxSeq)
    {
      var original := cache.Get(seqNo);
      if original.None? {
        return None;
      }
      var n := NextRtxSeq();
      var bytes := Rtcp.BuildRtxPacket(original.value, rtxSsrc, n);
      packet := Some(bytes);
    }

    method Resend(rtxSsrc: u32, seqs: seq<u16>) returns (packets: seq<seq<u8>>)
      requires Valid()
      modifies this
      ensures Valid() && packets == RtxList(cache.log, rtxSsrc, old(rtxSeq), seqs, |seqs|)
      ensures View() == old(View()).(rtxSeq := Wrap16(old(rtxSeq) + |packets|))
    {
      packets := [];
      ghost var log, first := cache.log, rtxSeq;
      for k := 0 to |seqs|
        invariant Valid() && cache.log == log && tracks == old(tracks) && rtxSsrcCounter == old(rtxSsrcCounter)
        invariant packets == RtxList(log, rtxSsrc, first, seqs, k)
        invariant rtxSeq == Wrap16(first + |packets|)
      {
        var packet := ResendOne(rtxSsrc, seqs[k]);
        if packet.Some? {
          NextNumber(first, |packets|);
          packets := packets + [packet.value];
        }
      }
    }

    method ResendTrack(ssrc: u32, seqs: seq<u16>) returns (packets: seq<seq<u8>>)
      requires Valid()
      modifies this
      ensures Valid() && packets == ResentBy(old(View()), ssrc, seqs)
      ensures View() == old(View()).(rtxSeq := Wrap16(old(rtxSeq) + |packets|))
    {
      packets := [];
      var track := TrackOf(tracks, ssrc);
      if track.Some? && track.value.rtxSsrc.Some? {
        packets := Resend(track.value.rtxSsrc.value, seqs);
      }
    }
  }

  ghost predicate Within(ps: map<string, Publisher>, repr: set<object>)
  {
    forall u :: u in ps ==> ps[u].Footprint() <= repr
  }

  ghost function MembersView(ps: map<string, Publisher>, repr: set<object>): (m: map<string, Member>)
    requires Within(ps, repr)
    reads repr
  {
    map u | u in ps :: ps[u].View()
  }

  /** Publishers are filed under their own names and share nothing. */
  ghost predicate Apart(ps: map<string, Publisher>)
  {
    && (forall u :: u in ps ==> ps[u].userId == u)
    && (forall u, w :: u in ps && w in ps && u != w ==> ps[u].Footprint() !! ps[w].Footprint())
  }

  ghost predicate AllValid(ps: map<string, Publisher>, repr: set<object>)
    requires Within(ps, repr)
    reads repr
  {
    forall u :: u in ps ==> ps[u].Valid()
  }

  lemma NoneChanged(ps: map<string, Publisher>, repr: set<object>, before: map<string, Member>)
    requires Within(ps, repr) && before.Keys == ps.Keys
    requires forall u :: u in ps ==> ps[u].Valid() && ps[u].View() == before[u]
    ensures AllValid(ps, repr) && MembersView(ps, repr) == before
  {
  }

  lemma OneChanged(ps: map<string, Publisher>, repr: set<object>, user: string, before: map<string, Member>)
    requires Within(ps, repr) && user in ps && before.Keys == ps.Keys && ps[user].Valid()
    requires forall u :: u in ps && u != user ==> ps[u].Valid() && ps[u].View() == before[u]
    ensures AllValid(ps, repr) && MembersView(ps, repr) == before[user := ps[user].View()]
  {
  }

  lemma Dropped(ps: map<string, Publisher>, repr: set<object>, user: string)
    requires Within(ps, repr) && AllValid(ps, repr)
    ensures var ps' := ps - {user};
            Within(ps', repr) && AllValid(ps', repr) && MembersView(ps', repr) == MembersView(ps, repr) - {user}
  {
  }

  lemma Enlisted(ps: map<string, Publisher>, repr: set<object>, p: Publisher)
    requires Within(ps, repr) && Apart(ps) && AllValid(ps, repr)
    requires p.userId !in ps && p.Footprint() !! repr && p.Valid()
    ensures var ps', repr' := ps[p.userId := p], repr + p.Footprint();
            && Within(ps', repr') && Apart(ps') && AllValid(ps', repr')
            && MembersView(ps', repr') == MembersView(ps, repr)[p.userId := p.View()]
  {
    var ps', repr' := ps[p.userId := p], repr + p.Footprint();
    assert Within(ps', repr');
    forall u, w | u in ps' && w in ps' && u != w ensures ps'[u].Footprint() !! ps'[w].Footprint() {
    }
  }

  /** A NACK's numbers as the cache knows them. */
  function LookupSeqs(setup: Setup, s: Room, media: u32, lost: seq<u16>): (r: seq<u16>)
    ensures |r| == |lost| && forall i :: 0 <= i < |lost| ==> r[i] == LookupSeq(setup, s, media, lost[i])
  {
    seq(|lost|, i requires 0 <= i < |lost| => LookupSeq(setup, s, media, lost[i]))
  }

  /** What publisher `m` resends for these numbers of its track, if the track has an RTX SSRC. */
  function ResentBy(m: Member, ssrc: u32, seqs: seq<u16>): seq<seq<u8>>
  {
    match TrackOf(m.tracks, ssrc)
    case Some(t) => if t.rtxSsrc.Some? then RtxList(m.cache, t.rtxSsrc.value, m.rtxSeq, seqs, |seqs|) else []
    case None => []
  }

  /** The RTX packets a NACK for these numbers brings out of publisher `m`. */
  function Resends(setup: Setup, s: Room, m: Member, media: u32, lost: seq<u16>): seq<seq<u8>>
  {
    ResentBy(m, LookupSsrc(setup, s, media), LookupSeqs(setup, s, media, lost))
  }

  /** A publisher found for an SSRC announced it; none is found only when nobody did. */
  ghost predicate Asked(s: Room, ssrc: u32, publisher: Option<string>)
  {
    match publisher
    case Some(u) => u in s.members && Owns(s.members[u], ssrc)
    case None => forall u :: u in s.members ==> !Owns(s.members[u], ssrc)
  }

  lemma RtxForCached(log: seq<Ring.Stored<seq<u8>>>, rtxSsrc: u32, rtxSeq: u16, n: u16)
    requires RtpCache.CacheGet(log, n).Some?
    ensures RtxFor(log, rtxSsrc, rtxSeq, n) == Some(Rtcp.RtxBytes(RtpCache.CacheGet(log, n).value, rtxSsrc, rtxSeq))
  {
  }

  lemma {:induction false} CachedIsResentBy(m: Member, ssrc: u32, seqs: seq<u16>, i: nat) returns (k: nat)
    requires i < |seqs| && RtpCache.CacheGet(m.cache, seqs[i]).Some?
    requires TrackOf(m.tracks, ssrc).Some? && TrackOf(m.tracks, ssrc).value.rtxSsrc.Some?
    ensures var rtx, resent := TrackOf(m.tracks, ssrc).value.rtxSsrc.value, ResentBy(m, ssrc, seqs);
            && k < |resent|
            && resent[k] == Rtcp.RtxBytes(RtpCache.CacheGet(m.cache, seqs[i]).value, rtx, Wrap16(m.rtxSeq + k))
  {
    var rtx := TrackOf(m.tracks, ssrc).value.rtxSsrc.value;
    k := CachedIsResent(m.cache, rtx, m.rtxSeq, seqs, |seqs|, i);
    RtxForCached(m.cache, rtx, Wrap16(m.rtxSeq + k), seqs[i]);
  }

  /** What the publisher has for a number asked for is sent, as RTX under one of its next numbers. */
  lemma {:induction false} AnswerIsResent(setup: Setup, s: Room, m: Member, media: u32, lost: seq<u16>, i: nat)
    returns (k: nat)
    requires i < |lost| && Answer(setup, s, m, media, lost[i]).Some?
    ensures k < |Resends(setup, s, m, media, lost)|
    ensures var rtx := TrackOf(m.tracks, LookupSsrc(setup, s, media)).value.rtxSsrc.value;
            Resends(setup, s, m, media, lost)[k] ==
            Rtcp.RtxBytes(Answer(setup, s, m, media, lost[i]).value, rtx, Wrap16(m.rtxSeq + k))
  {
    k := CachedIsResentBy(m, LookupSsrc(setup, s, media), LookupSeqs(setup, s, media, lost), i);
  }

  /** What came of one item: who was asked, for which numbers, and the RTX packets sent. */
  datatype Reply = Reply(publisher: Option<string>, lost: seq<u16>, packets: seq<seq<u8>>)

  ghost predicate Answers(setup: Setup, s: Room, item: Rtcp.NackItem, r: Reply)
  {
    && (forall n: u16 :: n in r.lost <==> Rtcp.Lost(item.pid, item.blp, n))
    && Asked(s, LookupSsrc(setup, s, item.mediaSsrc), r.publisher)
    && r.packets == match r.publisher
                    case Some(u) => Resends(setup, s, s.members[u], item.mediaSsrc, r.lost)
                    case None => []
  }

  function NumberOf(p: seq<u8>): u16 { if |p| < 12 then 0 else Be16(p, 2) }

  /** Packet `k` of the reply is `p`, as RTX of the track of `u` with this SSRC. */
  ghost predicate Carries(s: Room, r: Reply, k: nat, u: string, ssrc: u32, p: seq<u8>)
  {
    && r.publisher == Some(u) && u in s.members
    && var track := TrackOf(s.members[u].tracks, ssrc);
       && track.Some? && track.value.rtxSsrc.Some?
       && k < |r.packets|
          && r.packets[k] == Rtcp.RtxBytes(p, track.value.rtxSsrc.value, Wrap16(s.members[u].rtxSeq + k))
  }

  lemma OwnerReplies(setup: Setup, s: Room, u: string, item: Rtcp.NackItem, r: Reply)
    requires Answers(setup, s, item, r) && u in s.members
    requires forall w :: w in s.members ==> (Owns(s.members[w], LookupSsrc(setup, s, item.mediaSsrc)) <==> w == u)
    ensures r.publisher == Some(u) && r.packets == Resends(setup, s, s.members[u], item.mediaSsrc, r.lost)
  {
    assert Asked(s, LookupSsrc(setup, s, item.mediaSsrc), r.publisher);
  }

  /** A reply on a state in which the room has `p` for one of the numbers, and only `u` can be asked. */
  lemma {:induction false} ReplyHasAnswer(setup: Setup, s: Room, u: string, item: Rtcp.NackItem, r: Reply, n: u16,
                                          p: seq<u8>)
    returns (k: nat)
    requires Answers(setup, s, item, r) && Rtcp.Lost(item.pid, item.blp, n) && u in s.members
    requires forall w :: w in s.members ==> (Owns(s.members[w], LookupSsrc(setup, s, item.mediaSsrc)) <==> w == u)
    requires Answer(setup, s, s.members[u], item.mediaSsrc, n) == Some(p)
    ensures Carries(s, r, k, u, LookupSsrc(setup, s, item.mediaSsrc), p)
  {
    OwnerReplies(setup, s, u, item, r);
    assert n in r.lost;
    var i :| 0 <= i < |r.lost| && r.lost[i] == n;
    k := AnswerIsResent(setup, s, s.members[u], item.mediaSsrc, r.lost, i);
  }

  /**
   From packet to reply: video packet `p` of `u` left the room; while `u` keeps the floor, its
   membership and the base and no later packet took the slot, whoever asks for the number it
   left under gets `p` back, as RTX of the track of `u`.
   */
  lemma {:induction false} ReplyCarriesOriginal(setup: Setup, pre: seq<Event>, u: string, p: seq<u8>, post: seq<Event>,
                                                item: Rtcp.NackItem, r: Reply) returns (k: nat)
    requires setup.ptt && PayloadType(p) == PT_VIDEO && Forward(setup, Run(setup, pre), u, p).Some?
    requires Stays(post, u)
    requires var s := Run(setup, pre + [Rtp(u, p)] + post);
             && HoldsWithVideo(s, u) && SameBase(Run(setup, pre + [Rtp(u, p)]), s)
             && UniqueOwner(s, FirstVideo(s.members[u].tracks).value)
             && Answers(setup, s, item, r)
    requires forall i :: 0 <= i < |StoredBy(post, u)| ==>
                           StoredBy(post, u)[i].key % RtpCache.RTP_CACHE_SIZE != NumberOf(p) % RtpCache.RTP_CACHE_SIZE
    requires item.mediaSsrc == setup.video.ssrc
    requires Rtcp.Lost(item.pid, item.blp, NumberOf(Forward(setup, Run(setup, pre), u, p).value))
    ensures var s := Run(setup, pre + [Rtp(u, p)] + post);
            Carries(s, r, k, u, FirstVideo(s.members[u].tracks).value, p)
  {
    var s := Run(setup, pre + [Rtp(u, p)] + post);
    var n := NumberOf(Forward(setup, Run(setup, pre), u, p).value);
    assert Answer(setup, s, s.members[u], item.mediaSsrc, n) == Some(p) by {
      NackFindsOriginal(setup, pre, u, p, post);
      UndisturbedIsOriginal(p, Be16(p, 2), post, u);
    }
    var ssrc := LookupSsrc(setup, s, item.mediaSsrc);
    assert forall w :: w in s.members ==> (Owns(s.members[w], ssrc) <==> w == u) by {
      OnlyHolderAsked(setup, pre + [Rtp(u, p)] + post, u);
    }
    assert ssrc == FirstVideo(s.members[u].tracks).value by {
      OnlyHolderAsked(setup, pre + [Rtp(u, p)] + post, u);
    }
    k := ReplyHasAnswer(setup, s, u, item, r, n, p);
  }

  /**
   A receiver that puts such a packet back in the stream it asked about, under the SSRC and the
   octets it saw there, has the packet that left exactly when the rewriter had changed neither
   its number nor its timestamp: RTX carries the publisher's own.
   */
  lemma {:induction false} RestoredIsSentIff(setup: Setup, s: Room, u: string, p: seq<u8>, rtxSsrc: u32, rtxSeq: u16)
    requires setup.ptt && Agree(s) && PayloadType(p) == PT_VIDEO && Forward(setup, s, u, p).Some?
    requires |p| >= Rtcp.HeaderLength(p)
    ensures var out, rtx := Forward(setup, s, u, p).value, Rtcp.RtxBytes(p, rtxSsrc, rtxSeq);
            && |out| == |p| && |rtx| >= 14 && |rtx| >= Rtcp.HeaderLength(rtx) + 2
            && (Rtcp.Restore(rtx, out[1], out[8..12]) == out <==>
                Be16(out, 2) == Be16(p, 2) && Be32(out, 4) == Be32(p, 4))
  {
    var out := Forward(setup, s, u, p).value;
    Rtcp.RtxRestoresAs(p, rtxSsrc, rtxSeq, out);
  }

  function AfterReply(setup: Setup, s: Room, r: Reply): Room
  {
    match r.publisher
    case Some(u) => Step(setup, s, Resent(u, |r.packets|))
    case None => s
  }

  function AfterReplies(setup: Setup, s: Room, rs: seq<Reply>): Room
  {
    if rs == [] then s else AfterReply(setup, AfterReplies(setup, s, rs[..|rs| - 1]), rs[|rs| - 1])
  }

  /** Reply `k` answers item `k` on the state the replies before it left. */
  ghost predicate AllAnswer(setup: Setup, s: Room, items: seq<Rtcp.NackItem>, rs: seq<Reply>)
  {
    |rs| <= |items| && forall k :: 0 <= k < |rs| ==> Answers(setup, AfterReplies(setup, s, rs[..k]), items[k], rs[k])
  }

  lemma OneMoreReply(setup: Setup, s: Room, items: seq<Rtcp.NackItem>, rs: seq<Reply>, r: Reply)
    requires AllAnswer(setup, s, items, rs) && |rs| < |items|
    requires Answers(setup, AfterReplies(setup, s, rs), items[|rs|], r)
    ensures AllAnswer(setup, s, items, rs + [r])
    ensures AfterReplies(setup, s, rs + [r]) == AfterReply(setup, AfterReplies(setup, s, rs), r)
  {
    assert (rs + [r])[..|rs|] == rs;
    assert forall k :: 0 <= k < |rs| ==> (rs + [r])[..k] == rs[..k];
  }

  /** A step that is the floor's alone. */
  lemma FloorStep(setup: Setup, s: Room, e: Event, fe: Floor.Event, now: nat)
    requires FloorEventOf(setup, e) == Some((fe, now)) && !e.Leaves?
    ensures var (floor, action) := Floor.React(s.floor, fe, now);
            Step(setup, s, e) ==
            Room(floor, Ptt.Carry(setup.audio, s.audio, action), Ptt.Carry(setup.video, s.video, action), s.members)
  {
  }

  lemma PublishStep(setup: Setup, s: Room, user: string, ssrc: u32, video: bool)
    ensures Step(setup, s, Publish(user, ssrc, video)) ==
            if user in s.members
            then s.(members := s.members[user := Ptt.AddTrack(s.members[user], ssrc, video)])
            else s
  {
  }

  function Admitted(s: Room, user: string): Room { s.(members := s.members[user := Member([], [], 0, 0)]) }

  lemma JoinStep(setup: Setup, s: Room, user: string)
    ensures Step(setup, s, Join(user)) ==
            if |s.members| >= setup.capacity || user in s.members then s else Admitted(s, user)
  {
  }

  /** The room when `user` has used up this many RTX numbers. */
  function NumberedOn(s: Room, user: string, count: nat): Room
    requires user in s.members
  {
    s.(members := s.members[user := s.members[user].(rtxSeq := Wrap16(s.members[user].rtxSeq + count))])
  }

  lemma ResentStep(setup: Setup, s: Room, user: string, count: nat)
    requires user in s.members
    ensures Step(setup, s, Resent(user, count)) == NumberedOn(s, user, count)
  {
  }

  lemma LeaveStep(setup: Setup, s: Room, user: string)
    ensures var (floor, action) := if setup.ptt then Floor.React(s.floor, Floor.Leave(user), 0) else (s.floor, None);
            Step(setup, s, Leaves(user)) ==
            Room(floor, Ptt.Carry(setup.audio, s.audio, action), Ptt.Carry(setup.video, s.video, action),
                 s.members - {user})
  {
  }

  lemma ReapStep(setup: Setup, s: Room, user: string)
    ensures Step(setup, s, Reaped(user)) == s.(members := s.members - {user})
  {
  }

  function Kept(s: Room, user: string, p: seq<u8>): Room
    requires user in s.members
  {
    s.(members := s.members[user := Caching(s.members[user], p)])
  }

  /** Both rewriters after a packet past the gate, and what is sent. */
  function Translated(setup: Setup, audio: Rewriter.State, video: Rewriter.State, user: string, p: seq<u8>)
    : (Rewriter.State, Rewriter.State, Option<seq<u8>>)
  {
    if PayloadType(p) == PT_AUDIO then
      (Rewriter.Advanced(setup.audio, audio, p, user, false), video, Rewritten(setup.audio, audio, user, p, false))
    else if PayloadType(p) == PT_VIDEO then
      (audio, Rewriter.Advanced(setup.video, video, p, user, Vp8.Keyframe(p)),
       Rewritten(setup.video, video, user, p, Vp8.Keyframe(p)))
    else (audio, video, Some(p))
  }

  function Passed(setup: Setup, s: Room, user: string, p: seq<u8>): (Room, Option<seq<u8>>)
  {
    if !setup.ptt then (s, Some(p))
    else if !Floor.HeldBy(s.floor, user) then (s, None)
    else
      var (audio, video, out) := Translated(setup, s.audio, s.video, user, p);
      (s.(audio := audio, video := video), out)
  }

  lemma RtpStep(setup: Setup, s: Room, user: string, p: seq<u8>)
    requires user in s.members
    ensures (Step(setup, s, Rtp(user, p)), Forward(setup, s, user, p)) == Passed(setup, Kept(s, user, p), user, p)
  {
  }

  class PttRoom {
    const ptt: bool
    const capacity: nat
    const floor: Floor.FloorController
    const audioRewriter: Rewriter.PttRewriter
    const videoRewriter: Rewriter.PttRewriter
    var participants: map<string, Publisher>
    ghost var members: set<object>

    function Setup(): Ptt.Setup { Ptt.Setup(ptt, capacity, audioRewriter.Setup(), videoRewriter.Setup()) }

    ghost function Footprint(): set<object>
      reads this
    {
      {this, floor, audioRewriter, videoRewriter} + members
    }

    ghost predicate Valid()
      reads this, Footprint()
    {
      && audioRewriter != videoRewriter
      && {this, floor, audioRewriter, videoRewriter} !! members
      && Within(participants, members)
      && Apart(participants) && AllValid(participants, members)
    }

    ghost function View(): Room
      requires Valid()
      reads this, Footprint()
    {
      Room(floor.state, audioRewriter.View(), videoRewriter.View(), MembersView(participants, members))
    }

    constructor (isPtt: bool, requested: Option<nat>, audioSsrc: u32, videoSsrc: u32)
      ensures Valid() && fresh(Footprint()) && View() == EMPTY_ROOM
      ensures Setup() == Ptt.Setup(isPtt, HubModel.Capacity(requested),
                                   Rewriter.Config(audioSsrc, 960, false), Rewriter.Config(videoSsrc, 3000, true))
    {
      ptt, capacity := isPtt, HubModel.Capacity(requested);
      floor := new Floor.FloorController();
      audioRewriter := new Rewriter.PttRewriter(audioSsrc, Rewriter.TS_GUARD_GAP_AUDIO, false);
      videoRewriter := new Rewriter.PttRewriter(videoSsrc, Rewriter.TS_GUARD_GAP_VIDEO, true);
      participants, members := map[], {};
    }

    /** What a floor answer means for both rewriters. */
    method CarryOut(action: Option<Floor.FloorAction>)
      requires audioRewriter != videoRewriter
      modifies audioRewriter, videoRewriter
      ensures audioRewriter.View() == Ptt.Carry(audioRewriter.Setup(), old(audioRewriter.View()), action)
      ensures videoRewriter.View() == Ptt.Carry(videoRewriter.Setup(), old(videoRewriter.View()), action)
    {
      match action {
        case Some(Granted(speaker)) =>
          audioRewriter.SwitchSpeaker(speaker);
          videoRewriter.SwitchSpeaker(speaker);
        case Some(Released(_)) =>
          audioRewriter.ClearSpeaker();
          videoRewriter.ClearSpeaker();
        case Some(Revoked(_, _)) =>
          audioRewriter.ClearSpeaker();
          videoRewriter.ClearSpeaker();
        case _ =>
      }
    }

    /** The floor's part of a handler: ask the floor, then do to the rewriters what it answered. */
    method OnFloor(e: Floor.Event, now: nat) returns (action: Option<Floor.FloorAction>)
      requires audioRewriter != videoRewriter
      modifies floor, audioRewriter, videoRewriter
      ensures (floor.state, action) == Floor.React(old(floor.state), e, now)
      ensures audioRewriter.View() == Ptt.Carry(audioRewriter.Setup(), old(audioRewriter.View()), action)
      ensures videoRewriter.View() == Ptt.Carry(videoRewriter.Setup(), old(videoRewriter.View()), action)
    {
      match e {
        case Request(user) => var a := floor.Request(user, now); action := Some(a);
        case Release(user) => var a := floor.Release(user); action := Some(a);
        case Ping(user) => var a := floor.Ping(user, now); action := Some(a);
        case Check => action := floor.CheckTimers(now);
        case Leave(user) => action := floor.OnParticipantLeave(user);
      }
      CarryOut(action);
    }

    method HandleFloorRequest(user: string, now: nat) returns (action: Option<Floor.FloorAction>)
      requires Valid()
      modifies floor, audioRewriter, videoRewriter
      ensures Valid() && View() == Step(Setup(), old(View()), FloorRequest(user, now))
      ensures action == if ptt then Floor.React(old(floor.state), Floor.Request(user), now).1 else None
    {
      action := None;
      if ptt {
        action := OnFloor(Floor.Request(user), now);
        FloorStep(Setup(), old(View()), FloorRequest(user, now), Floor.Request(user), now);
      }
      NoneChanged(participants, members, old(MembersView(participants, members)));
    }

    method HandleFloorRelease(user: string) returns (action: Option<Floor.FloorAction>)
      requires Valid()
      modifies floor, audioRewriter, videoRewriter
      ensures Valid() && View() == Step(Setup(), old(View()), FloorRelease(user))
      ensures action == if ptt then Floor.React(old(floor.state), Floor.Release(user), 0).1 else None
    {
      action := None;
      if ptt {
        action := OnFloor(Floor.Release(user), 0);
        FloorStep(Setup(), old(View()), FloorRelease(user), Floor.Release(user), 0);
      }
      NoneChanged(participants, members, old(MembersView(participants, members)));
    }

    /** The one floor handler without a mode check. */
    method HandleFloorPing(user: string, now: nat) returns (action: Option<Floor.FloorAction>)
      requires Valid()
      modifies floor, audioRewriter, videoRewriter
      ensures Valid() && View() == Step(Setup(), old(View()), FloorPing(user, now))
      ensures action == Floor.React(old(floor.state), Floor.Ping(user), now).1
    {
      action := OnFloor(Floor.Ping(user), now);
      FloorStep(Setup(), old(View()), FloorPing(user, now), Floor.Ping(user), now);
      NoneChanged(participants, members, old(MembersView(participants, members)));
    }

    method TimerTick(now: nat) returns (action: Option<Floor.FloorAction>)
      requires Valid()
      modifies floor, audioRewriter, videoRewriter
      ensures Valid() && View() == Step(Setup(), old(View()), Timer(now))
      ensures action == if ptt then Floor.React(old(floor.state), Floor.Check, now).1 else None
    {
      action := None;
      if ptt {
        action := OnFloor(Floor.Check, now);
        FloorStep(Setup(), old(View()), Timer(now), Floor.Check, now);
      }
      NoneChanged(participants, members, old(MembersView(participants, members)));
    }

    method Forget(user: string)
      requires Valid()
      modifies this
      ensures Valid() && View() == old(View()).(members := old(View()).members - {user})
    {
      Dropped(participants, members, user);
      participants := participants - {user};
    }

    /** Leaving, and the clean-up after a lost connection: the floor first, then the member. */
    method HandleLeave(user: string) returns (action: Option<Floor.FloorAction>)
      requires Valid()
      modifies this, floor, audioRewriter, videoRewriter
      ensures Valid() && View() == Step(Setup(), old(View()), Leaves(user))
      ensures action == if ptt then Floor.React(old(floor.state), Floor.Leave(user), 0).1 else None
    {
      action := None;
      if ptt {
        action := OnFloor(Floor.Leave(user), 0);
      }
      LeaveStep(Setup(), old(View()), user);
      NoneChanged(participants, members, old(MembersView(participants, members)));
      Forget(user);
    }

    /** The reaper takes a member out and leaves the floor alone. */
    method HandleReap(user: string)
      requires Valid()
      modifies this
      ensures Valid() && View() == Step(Setup(), old(View()), Reaped(user))
    {
      ReapStep(Setup(), View(), user);
      Forget(user);
    }

    method Enlist(p: Publisher)
      requires Valid() && p.userId !in participants && p.Footprint() !! Footprint() && p.Valid()
      modifies this
      ensures Valid() && View() == old(View()).(members := old(View()).members[p.userId := p.View()])
      ensures members == old(members) + p.Footprint()
    {
      Enlisted(participants, members, p);
      participants, members := participants[p.userId := p], members + p.Footprint();
    }

    method Admit(user: string)
      requires Valid() && user !in participants
      modifies this
      ensures Valid() && View() == Admitted(old(View()), user) && fresh(Footprint() - old(Footprint()))
    {
      var p := new Publisher(user);
      Enlist(p);
    }

    /** Full, then already there, then a member. */
    method HandleJoin(user: string) returns (refused: Option<HubModel.LightError>)
      requires Valid()
      modifies this
      ensures Valid() && View() == Step(Setup(), old(View()), Join(user)) && fresh(Footprint() - old(Footprint()))
      ensures refused == if |old(View()).members| >= capacity then Some(HubModel.RoomFull)
                         else if user in old(View()).members then Some(HubModel.AlreadyInRoom) else None
    {
      JoinStep(Setup(), View(), user);
      assert View().members.Keys == participants.Keys;
      if |participants| >= capacity {
        return Some(HubModel.RoomFull);
      }
      if user in participants {
        return Some(HubModel.AlreadyInRoom);
      }
      Admit(user);
      refused := None;
    }

    method HandlePublish(user: string, ssrc: u32, video: bool)
      requires Valid()
      modifies members
      ensures Valid() && View() == Step(Setup(), old(View()), Publish(user, ssrc, video))
    {
      PublishStep(Setup(), View(), user, ssrc, video);
      if user in participants {
        var p := participants[user];
        p.AddTrack(ssrc, video);
        OneChanged(participants, members, user, old(MembersView(participants, members)));
      }
    }

    /** Keeps a video packet of a member, whether or not it will pass the gate. */
    method Keep(user: string, plaintext: seq<u8>)
      requires Valid() && user in participants
      modifies members
      ensures Valid() && View() == Kept(old(View()), user, plaintext)
    {
      var p := participants[user];
      p.Keep(plaintext);
      OneChanged(participants, members, user, old(MembersView(participants, members)));
    }

    /** Rewrites a copy of the packet for its kind; nothing to send while a keyframe is awaited. */
    method Translate(user: string, plaintext: seq<u8>) returns (fanout: Option<seq<u8>>)
      requires audioRewriter != videoRewriter
      modifies audioRewriter, videoRewriter
      ensures var audio, video := old(audioRewriter.View()), old(videoRewriter.View());
              (audioRewriter.View(), videoRewriter.View(), fanout) == Translated(Setup(), audio, video, user, plaintext)
    {
      var rewritten := new u8[|plaintext|](i requires 0 <= i < |plaintext| => plaintext[i]);
      assert rewritten[..] == plaintext;
      var result := Rewriter.Skip;
      if PayloadType(plaintext) == PT_AUDIO {
        result := audioRewriter.Rewrite(rewritten, user, false);
      } else if PayloadType(plaintext) == PT_VIDEO {
        var keyframe := Vp8.IsVp8Keyframe(plaintext);
        result := videoRewriter.Rewrite(rewritten, user, keyframe);
      }
      match result {
        case Ok => fanout := Some(rewritten[..]);
        case PendingKeyframe => fanout := None;
        case Skip => fanout := Some(plaintext);
      }
    }

    /** The push-to-talk gate, and what lies behind it. */
    method Pass(user: string, plaintext: seq<u8>) returns (fanout: Option<seq<u8>>)
      requires Valid()
      modifies audioRewriter, videoRewriter
      ensures Valid() && (View(), fanout) == Passed(Setup(), old(View()), user, plaintext)
    {
      if !ptt {
        return Some(plaintext);
      }
      var speaker := floor.state;
      if !Floor.HeldBy(speaker, user) {
        return None;
      }
      fanout := Translate(user, plaintext);
      NoneChanged(participants, members, old(MembersView(participants, members)));
    }

    /** A decrypted packet of `user`: cached, gated, rewritten; what is fanned out, if anything. */
    method HandleRtp(user: string, plaintext: seq<u8>) returns (fanout: Option<seq<u8>>)
      requires Valid() && user in participants
      modifies members, audioRewriter, videoRewriter
      ensures Valid() && View() == Step(Setup(), old(View()), Rtp(user, plaintext))
      ensures fanout == Forward(Setup(), old(View()), user, plaintext)
    {
      RtpStep(Setup(), old(View()), user, plaintext);
      Keep(user, plaintext);
      fanout := Pass(user, plaintext);
    }

    /** Some member announcing this SSRC, in no particular order. */
    method FindByTrackSsrc(ssrc: u32) returns (user: Option<string>)
      requires Valid()
      ensures Asked(View(), ssrc, user)
    {
      var left := participants.Keys;
      while left != {}
        invariant left <= participants.Keys
        invariant forall u :: u in participants && u !in left ==> TrackOf(participants[u].tracks, ssrc).None?
      {
        var u :| u in left;
        if TrackOf(participants[u].tracks, ssrc).Some? {
          return Some(u);
        }
        left := left - {u};
      }
      user := None;
    }

    /** Where a NACK is to be looked up, and under which numbers. */
    method RemapNack(media: u32, lost: seq<u16>) returns (ssrc: u32, seqs: seq<u16>)
      requires Valid()
      ensures ssrc == LookupSsrc(Setup(), View(), media)
      ensures seqs == LookupSeqs(Setup(), View(), media, lost)
    {
      ssrc, seqs := media, lost;
      if ptt && media == videoRewriter.virtualSsrc {
        seqs := [];
        for i := 0 to |lost|
          invariant |seqs| == i && forall k :: 0 <= k < i ==> seqs[k] == LookupSeq(Setup(), View(), media, lost[k])
        {
          var n := videoRewriter.Reverse(lost[i]);
          seqs := seqs + [n];
        }
        var state := floor.state;
        if state.Taken? && state.speaker in participants {
          var video := FirstVideo(participants[state.speaker].tracks);
          if video.Some? {
            ssrc := video.value;
          }
        }
      }
    }

    /** Has one member resend what it still has of the numbers. */
    method ResendFrom(user: string, ssrc: u32, seqs: seq<u16>) returns (packets: seq<seq<u8>>)
      requires Valid() && user in participants
      modifies members
      ensures Valid() && View() == NumberedOn(old(View()), user, |packets|)
      ensures packets == ResentBy(old(View()).members[user], ssrc, seqs)
    {
      var p := participants[user];
      packets := p.ResendTrack(ssrc, seqs);
      OneChanged(participants, members, user, old(MembersView(participants, members)));
    }

    /** Has whoever announced the SSRC resend what it still has of the numbers. */
    method ResendAny(ssrc: u32, seqs: seq<u16>) returns (publisher: Option<string>, packets: seq<seq<u8>>)
      requires Valid()
      modifies members
      ensures Valid() && Asked(old(View()), ssrc, publisher)
      ensures packets == match publisher case Some(u) => ResentBy(old(View()).members[u], ssrc, seqs) case None => []
      ensures View() ==
              match publisher case Some(u) => Step(Setup(), old(View()), Resent(u, |packets|)) case None => old(View())
    {
      packets := [];
      publisher := FindByTrackSsrc(ssrc);
      if publisher.Some? {
        packets := ResendFrom(publisher.value, ssrc, seqs);
        ResentStep(Setup(), old(View()), publisher.value, |packets|);
      }
    }

    /** One item of a Generic NACK. */
    method HandleNackItem(item: Rtcp.NackItem) returns (reply: Reply)
      requires Valid()
      modifies members
      ensures Valid() && Answers(Setup(), old(View()), item, reply)
      ensures View() == AfterReply(Setup(), old(View()), reply)
    {
      var lost := Rtcp.ExpandNack(item.pid, item.blp);
      var ssrc, seqs := RemapNack(item.mediaSsrc, lost);
      var publisher, packets := ResendAny(ssrc, seqs);
      reply := Reply(publisher, lost, packets);
    }

    /** A Generic NACK as received: every item in turn, each on the state the ones before it left. */
    method HandleNackBlock(data: seq<u8>) returns (replies: seq<Reply>)
      requires Valid()
      modifies members
      ensures Valid() && View() == AfterReplies(Setup(), old(View()), replies)
      ensures |replies| == |Rtcp.ItemsAhead(data)|
      ensures forall k :: 0 <= k < |replies| ==>
                            Answers(Setup(), AfterReplies(Setup(), old(View()), replies[..k]),
                                    Rtcp.ItemsAhead(data)[k], replies[k])
    {
      ghost var s := View();
      var items := Rtcp.ParseRtcpNack(data);
      replies := [];
      for k := 0 to |items|
        invariant Valid() && View() == AfterReplies(Setup(), s, replies) && |replies| == k
        invariant AllAnswer(Setup(), s, items, replies)
      {
        var reply := HandleNackItem(items[k]);
        OneMoreReply(Setup(), s, items, replies, reply);
        replies := replies + [reply];
      }
    }
  }
}
