/** Answering NACKs in a push-to-talk room: from virtual numbers back to a publisher's own packets. */
module PttNack {
  import opened Words
  import opened Ring
  import Floor
  import opened Ptt
  import Rewriter
  import RewriterRuns
  import RtpCache

  function FirstVideo(tracks: seq<Track>): Option<u32>
  {
    if tracks == [] then None
    else if tracks[0].video then Some(tracks[0].ssrc)
    else FirstVideo(tracks[1..])
  }

  /** The first track with this SSRC. */
  function TrackOf(tracks: seq<Track>, ssrc: u32): Option<Track>
  {
    if tracks == [] then None
    else if tracks[0].ssrc == ssrc then Some(tracks[0])
    else TrackOf(tracks[1..], ssrc)
  }

  /** A NACK against the room's virtual video SSRC is meant for the floor holder's video. */
  function LookupSsrc(setup: Setup, s: Room, media: u32): u32
  {
    if setup.ptt && media == setup.video.ssrc && s.floor.Taken? && s.floor.speaker in s.members then
      match FirstVideo(s.members[s.floor.speaker].tracks)
      case Some(ssrc) => ssrc
      case None => media
    else media
  }

  function LookupSeq(setup: Setup, s: Room, media: u32, n: u16): u16
  {
    if setup.ptt && media == setup.video.ssrc then Rewriter.ReverseSeq(s.video, n) else n
  }

  predicate Owns(m: Member, ssrc: u32) { TrackOf(m.tracks, ssrc).Some? }

  /** What publisher `m` has for one lost number, if it announced the track with an RTX SSRC. */
  function Answer(setup: Setup, s: Room, m: Member, media: u32, n: u16): Option<seq<u8>>
  {
    match TrackOf(m.tracks, LookupSsrc(setup, s, media))
    case Some(t) => if t.rtxSsrc.Some? then RtpCache.CacheGet(m.cache, LookupSeq(setup, s, media, n)) else None
    case None => None
  }

  /** No two members announced the same SSRC. */
  ghost predicate UniqueOwner(s: Room, ssrc: u32)
  {
    forall u, w :: u in s.members && w in s.members && Owns(s.members[u], ssrc) && Owns(s.members[w], ssrc) ==> u == w
  }

  // --- tracks of a reachable room ---

  /** Tracks of one member have distinct SSRCs, and every video track has an RTX SSRC. */
  ghost predicate TracksInOrder(tracks: seq<Track>)
  {
    && (forall i, j :: 0 <= i < j < |tracks| ==> tracks[i].ssrc != tracks[j].ssrc)
    && (forall i :: 0 <= i < |tracks| ==> (tracks[i].video <==> tracks[i].rtxSsrc.Some?))
  }

  lemma AddTrackInOrder(m: Member, ssrc: u32, video: bool)
    requires TracksInOrder(m.tracks)
    ensures TracksInOrder(AddTrack(m, ssrc, video).tracks)
  {
  }

  lemma TracksStep(setup: Setup, s: Room, e: Event, u: string)
    requires u in s.members ==> TracksInOrder(s.members[u].tracks)
    ensures u in Step(setup, s, e).members ==> TracksInOrder(Step(setup, s, e).members[u].tracks)
  {
    if u in s.members && e.Publish? {
      AddTrackInOrder(s.members[u], e.ssrc, e.video);
    }
  }

  lemma {:induction false} TracksStayInOrder(setup: Setup, es: seq<Event>, u: string)
    requires u in Run(setup, es).members
    ensures TracksInOrder(Run(setup, es).members[u].tracks)
  {
    if es != [] {
      var before := es[..|es| - 1];
      if u in Run(setup, before).members {
        TracksStayInOrder(setup, before, u);
      }
      TracksStep(setup, Run(setup, before), es[|es| - 1], u);
    }
  }

  function VideoCount(tracks: seq<Track>): nat
  {
    if tracks == [] then 0
    else VideoCount(tracks[..|tracks| - 1]) + if tracks[|tracks| - 1].video then 1 else 0
  }

  lemma OneMoreTrack(tracks: seq<Track>, t: Track)
    ensures VideoCount(tracks + [t]) == VideoCount(tracks) + if t.video then 1 else 0
  {
    assert (tracks + [t])[..|tracks|] == tracks;
  }

  lemma AddTrackCounts(m: Member, ssrc: u32, video: bool)
    requires m.rtxCounter == VideoCount(m.tracks) % 0x1_0000_0000
    ensures var m' := AddTrack(m, ssrc, video); m'.rtxCounter == VideoCount(m'.tracks) % 0x1_0000_0000
  {
    var m' := AddTrack(m, ssrc, video);
    if m' != m {
      OneMoreTrack(m.tracks, m'.tracks[|m.tracks|]);
      CountWraps(VideoCount(m.tracks));
    }
  }

  lemma CounterStep(setup: Setup, s: Room, e: Event, u: string)
    requires u in s.members ==> s.members[u].rtxCounter == VideoCount(s.members[u].tracks) % 0x1_0000_0000
    ensures var s' := Step(setup, s, e);
            u in s'.members ==> s'.members[u].rtxCounter == VideoCount(s'.members[u].tracks) % 0x1_0000_0000
  {
    if u in s.members && e.Publish? && e.user == u {
      AddTrackCounts(s.members[u], e.ssrc, e.video);
    }
  }

  lemma CountWraps(n: nat)
    ensures Add32(n % 0x1_0000_0000, 1) == (n + 1) % 0x1_0000_0000
  {
  }

  lemma {:induction false} CounterIs(setup: Setup, es: seq<Event>, u: string)
    requires u in Run(setup, es).members
    ensures var m := Run(setup, es).members[u]; m.rtxCounter == VideoCount(m.tracks) % 0x1_0000_0000
  {
    if es != [] {
      var before := es[..|es| - 1];
      if u in Run(setup, before).members {
        CounterIs(setup, before, u);
      }
      CounterStep(setup, Run(setup, before), es[|es| - 1], u);
    }
  }

  lemma RtxSsrcIs(ssrc: u32, n: nat)
    ensures Add32(Add32(ssrc, 1000), n % 0x1_0000_0000) == (ssrc + 1000 + n) % 0x1_0000_0000
  {
    WordsWrap(0, 0, ssrc, 1000);
    WordsWrap(0, 0, Add32(ssrc, 1000), n % 0x1_0000_0000);
  }

  /**
   In every reachable state announcing a new SSRC adds one track of its kind, a video track with
   the RTX SSRC that lies 1000 and the number of earlier video tracks further.
   */
  lemma {:induction false} PublishAdds(setup: Setup, es: seq<Event>, u: string, ssrc: u32, video: bool)
    requires u in Run(setup, es).members
    requires forall i :: 0 <= i < |Run(setup, es).members[u].tracks| ==>
             Run(setup, es).members[u].tracks[i].ssrc != ssrc
    ensures var tracks := Run(setup, es).members[u].tracks;
            var s := Step(setup, Run(setup, es), Publish(u, ssrc, video));
            var rtx: u32 := (ssrc + 1000 + VideoCount(tracks)) % 0x1_0000_0000;
            && u in s.members
            && s.members[u].tracks == tracks + [Track(ssrc, video, if video then Some(rtx) else None)]
  {
    CounterIs(setup, es, u);
    RtxSsrcIs(ssrc, VideoCount(Run(setup, es).members[u].tracks));
  }

  /** The track a member's first video SSRC finds is a video track with an RTX SSRC. */
  lemma {:induction false} FirstVideoIsFound(tracks: seq<Track>)
    requires TracksInOrder(tracks) && FirstVideo(tracks).Some?
    ensures var t := TrackOf(tracks, FirstVideo(tracks).value);
            t.Some? && t.value.video && t.value.rtxSsrc.Some?
    ensures exists i :: 0 <= i < |tracks| && tracks[i].ssrc == FirstVideo(tracks).value
  {
    if !tracks[0].video {
      FirstVideoIsFound(tracks[1..]);
      var i :| 0 <= i < |tracks[1..]| && tracks[1..][i].ssrc == FirstVideo(tracks).value;
      assert tracks[i + 1].ssrc == FirstVideo(tracks).value;
    }
  }

  /** It is the SSRC of the first video track; there is none exactly when no track is video. */
  lemma {:induction false} FirstVideoIs(tracks: seq<Track>, i: nat)
    requires i < |tracks| && tracks[i].video && forall j :: 0 <= j < i ==> !tracks[j].video
    ensures FirstVideo(tracks) == Some(tracks[i].ssrc)
  {
    if i > 0 {
      FirstVideoIs(tracks[1..], i - 1);
    }
  }

  lemma {:induction false} NoVideo(tracks: seq<Track>)
    requires forall j :: 0 <= j < |tracks| ==> !tracks[j].video
    ensures FirstVideo(tracks).None?
  {
    if tracks != [] {
      NoVideo(tracks[1..]);
    }
  }

  // --- caches over a run ---

  /** What `u` stored in its cache during `es`. */
  function StoredBy(es: seq<Event>, u: string): seq<Stored<seq<u8>>>
  {
    if es == [] then []
    else
      var e := es[|es| - 1];
      StoredBy(es[..|es| - 1], u) +
      if e.Rtp? && e.user == u && PayloadType(e.packet) == PT_VIDEO then [Stored(Be16(e.packet, 2), e.packet)] else []
  }

  lemma {:induction false} StoredByKeyed(es: seq<Event>, u: string)
    ensures RtpCache.WellKeyed(StoredBy(es, u))
  {
    if es != [] {
      StoredByKeyed(es[..|es| - 1], u);
    }
  }

  /** Nothing takes the member out of the room. */
  ghost predicate Stays(es: seq<Event>, u: string) { Leaves(u) !in es && Reaped(u) !in es }

  lemma GrownByOne(cache: seq<Stored<seq<u8>>>, more: seq<Event>, u: string)
    requires more != []
    ensures var less, e := more[..|more| - 1], more[|more| - 1];
            cache + StoredBy(more, u) == (cache + StoredBy(less, u)) +
            if e.Rtp? && e.user == u && PayloadType(e.packet) == PT_VIDEO
            then [Stored(Be16(e.packet, 2), e.packet)]
            else []
  {
  }

  /** While a member stays, its cache grows by exactly the video packets it sends, passed on or not. */
  lemma {:induction false} CacheGrows(setup: Setup, es: seq<Event>, more: seq<Event>, u: string)
    requires u in Run(setup, es).members && Stays(more, u)
    ensures u in Run(setup, es + more).members
    ensures Run(setup, es + more).members[u].cache == Run(setup, es).members[u].cache + StoredBy(more, u)
  {
    if more == [] {
      assert es + more == es;
    } else {
      var less, e := more[..|more| - 1], more[|more| - 1];
      CacheGrows(setup, es, less, u);
      assert Run(setup, es + more) == Step(setup, Run(setup, es + less), e) by {
        RunOne(setup, es + less, e);
        assert (es + less) + [e] == es + more;
      }
      assert e in more;
      CacheStep(setup, Run(setup, es + less), e, u);
      GrownByOne(Run(setup, es).members[u].cache, more, u);
    }
  }

  /** How many RTX packets the member has sent since it joined. */
  function ResentCount(setup: Setup, es: seq<Event>, u: string): nat
  {
    if es == [] || u !in Run(setup, es[..|es| - 1]).members then 0
    else
      var e := es[|es| - 1];
      ResentCount(setup, es[..|es| - 1], u) + if e.Resent? && e.user == u then e.count else 0
  }

  lemma RtxStep(setup: Setup, s: Room, e: Event, u: string)
    requires u in Step(setup, s, e).members
    ensures Step(setup, s, e).members[u].rtxSeq ==
            if u !in s.members then 0
            else if e.Resent? && e.user == u then (s.members[u].rtxSeq + e.count) % 0x1_0000
            else s.members[u].rtxSeq
  {
  }

  lemma OneMoreCount(a: nat, b: nat)
    ensures (a % 0x1_0000 + b) % 0x1_0000 == (a + b) % 0x1_0000
  {
  }

  /** A member's RTX numbers are used one after another: the next one is how many it has sent, modulo 2^16. */
  lemma {:induction false} RtxNumbersRunOn(setup: Setup, es: seq<Event>, u: string)
    requires u in Run(setup, es).members
    ensures Run(setup, es).members[u].rtxSeq == ResentCount(setup, es, u) % 0x1_0000
  {
    var before, e := es[..|es| - 1], es[|es| - 1];
    var s := Run(setup, before);
    assert Run(setup, es).members[u].rtxSeq ==
           if u !in s.members then 0
           else if e.Resent? && e.user == u then (s.members[u].rtxSeq + e.count) % 0x1_0000
           else s.members[u].rtxSeq by {
      RtxStep(setup, s, e, u);
    }
    if u in s.members {
      RtxNumbersRunOn(setup, before, u);
      if e.Resent? && e.user == u {
        OneMoreCount(ResentCount(setup, before, u), e.count);
      }
    }
  }

  lemma CacheStep(setup: Setup, s: Room, e: Event, u: string)
    requires u in s.members && e != Leaves(u) && e != Reaped(u)
    ensures u in Step(setup, s, e).members
    ensures Step(setup, s, e).members[u].cache == s.members[u].cache +
            if e.Rtp? && e.user == u && PayloadType(e.packet) == PT_VIDEO
            then [Stored(Be16(e.packet, 2), e.packet)]
            else []
  {
  }

  lemma {:induction false} NewestOfConcat<T>(a: seq<Stored<T>>, b: seq<Stored<T>>, size: int, slot: int)
    requires 0 < size
    ensures Newest(a + b, size, slot) ==
            if Newest(b, size, slot).Some? then Newest(b, size, slot) else Newest(a, size, slot)
  {
    if b == [] {
      assert a + b == a;
    } else {
      assert (a + b)[..|a + b| - 1] == a + b[..|b| - 1];
      NewestOfConcat(a, b[..|b| - 1], size, slot);
    }
  }

  /** What the room answers for number `n` of a packet, given what its publisher stored since. */
  function StillCached(p: seq<u8>, n: u16, since: seq<Stored<seq<u8>>>): Option<seq<u8>>
  {
    match Newest(since, RtpCache.RTP_CACHE_SIZE, n % RtpCache.RTP_CACHE_SIZE)
    case None => Some(p)
    case Some(later) => if later.key == n then Some(later.val) else None
  }

  lemma CachedPacket(before: seq<Stored<seq<u8>>>, p: seq<u8>, since: seq<Stored<seq<u8>>>)
    requires |p| >= 12 && RtpCache.WellKeyed(since)
    ensures RtpCache.CacheGet(before + [Stored(Be16(p, 2), p)] + since, Be16(p, 2)) == StillCached(p, Be16(p, 2), since)
  {
    var n := Be16(p, 2);
    NewestOfConcat(before + [Stored(n, p)], since, RtpCache.RTP_CACHE_SIZE, n % RtpCache.RTP_CACHE_SIZE);
    NewestAppend(before, Stored(n, p), RtpCache.RTP_CACHE_SIZE);
    NewestIsHeld(since, RtpCache.RTP_CACHE_SIZE, n % RtpCache.RTP_CACHE_SIZE);
  }

  /** A holder with a video track, whose NACKs on the virtual SSRC are looked up at that track. */
  ghost predicate HoldsWithVideo(s: Room, u: string)
  {
    Floor.HeldBy(s.floor, u) && u in s.members && FirstVideo(s.members[u].tracks).Some?
  }

  /** When no other member announced the holder's video SSRC, a NACK on the virtual SSRC is looked up there alone. */
  lemma {:induction false} OnlyHolderAsked(setup: Setup, es: seq<Event>, u: string)
    requires setup.ptt && HoldsWithVideo(Run(setup, es), u)
    requires UniqueOwner(Run(setup, es), FirstVideo(Run(setup, es).members[u].tracks).value)
    ensures var s := Run(setup, es);
            var track := TrackOf(s.members[u].tracks, LookupSsrc(setup, s, setup.video.ssrc));
            && LookupSsrc(setup, s, setup.video.ssrc) == FirstVideo(s.members[u].tracks).value
            && track.Some? && track.value.rtxSsrc.Some?
            && forall w :: w in s.members ==> (Owns(s.members[w], LookupSsrc(setup, s, setup.video.ssrc)) <==> w == u)
  {
    TracksStayInOrder(setup, es, u);
    FirstVideoIsFound(Run(setup, es).members[u].tracks);
  }

  // --- the main result ---

  /** Virtual numbers are still counted from where they were counted at `s0`. */
  predicate SameBase(s0: Room, s: Room)
  {
    s.video.originSeq == s0.video.originSeq && s.video.baseSeq == s0.video.baseSeq
  }

  lemma ForwardedNumber(setup: Setup, pre: seq<Event>, u: string, p: seq<u8>)
    requires setup.ptt && PayloadType(p) == PT_VIDEO && Forward(setup, Run(setup, pre), u, p).Some?
    ensures var s := Step(setup, Run(setup, pre), Rtp(u, p));
            var out := Forward(setup, Run(setup, pre), u, p).value;
            |out| == |p| && |p| >= 12 && Be16(out, 2) == Rewriter.VirtualSeq(s.video, Be16(p, 2))
  {
    ForwardedFromHolder(setup, pre, u, p);
  }

  /** Under the base `p` left under, its virtual number is mapped back to its own. */
  lemma NumberComesBack(setup: Setup, pre: seq<Event>, u: string, p: seq<u8>, s: Room)
    requires setup.ptt && PayloadType(p) == PT_VIDEO && Forward(setup, Run(setup, pre), u, p).Some?
    requires SameBase(Run(setup, pre + [Rtp(u, p)]), s)
    ensures var out := Forward(setup, Run(setup, pre), u, p).value;
            |out| == |p| && |p| >= 12 && Rewriter.ReverseSeq(s.video, Be16(out, 2)) == Be16(p, 2)
  {
    assert (pre + [Rtp(u, p)])[..|pre|] == pre;
    ForwardedNumber(setup, pre, u, p);
    Rewriter.ReverseInverts(s.video, Be16(p, 2));
  }

  lemma PacketIsCached(setup: Setup, pre: seq<Event>, u: string, p: seq<u8>, post: seq<Event>)
    requires u in Run(setup, pre).members && PayloadType(p) == PT_VIDEO && Stays(post, u)
    ensures var s := Run(setup, pre + [Rtp(u, p)] + post);
            && |p| >= 12 && u in s.members
            && RtpCache.CacheGet(s.members[u].cache, Be16(p, 2)) == StillCached(p, Be16(p, 2), StoredBy(post, u))
  {
    var cache := Run(setup, pre).members[u].cache;
    assert (pre + [Rtp(u, p)])[..|pre|] == pre;
    CacheStep(setup, Run(setup, pre), Rtp(u, p), u);
    CacheGrows(setup, pre + [Rtp(u, p)], post, u);
    StoredByKeyed(post, u);
    CachedPacket(cache, p, StoredBy(post, u));
  }

  /** A NACK on the virtual SSRC is answered from the holder's cache, under the number mapped back. */
  lemma {:induction false} AnswerIsCached(setup: Setup, es: seq<Event>, u: string, n: u16)
    requires setup.ptt && HoldsWithVideo(Run(setup, es), u)
    ensures var s := Run(setup, es);
            Answer(setup, s, s.members[u], setup.video.ssrc, n) ==
            RtpCache.CacheGet(s.members[u].cache, Rewriter.ReverseSeq(s.video, n))
  {
    TracksStayInOrder(setup, es, u);
    FirstVideoIsFound(Run(setup, es).members[u].tracks);
  }

  /**
   A video packet `p` left the room as `out`. As long as its sender keeps the floor and its
   membership and the base is the same, a NACK for the virtual number of `out` is looked up at
   the sender's video track and nowhere else, and answered with exactly the bytes of `p`, or
   with what the sender last stored in that slot since: nothing unless it has the same number.
   */
  lemma {:induction false} NackFindsOriginal(setup: Setup, pre: seq<Event>, u: string, p: seq<u8>, post: seq<Event>)
    requires setup.ptt && PayloadType(p) == PT_VIDEO && Forward(setup, Run(setup, pre), u, p).Some?
    requires Stays(post, u)
    requires var s := Run(setup, pre + [Rtp(u, p)] + post);
             && HoldsWithVideo(s, u) && SameBase(Run(setup, pre + [Rtp(u, p)]), s)
             && UniqueOwner(s, FirstVideo(s.members[u].tracks).value)
    ensures var s := Run(setup, pre + [Rtp(u, p)] + post);
            var out := Forward(setup, Run(setup, pre), u, p).value;
            && |out| == |p| && |p| >= 12
            && (forall w :: w in s.members ==>
                              (Owns(s.members[w], LookupSsrc(setup, s, setup.video.ssrc)) <==> w == u))
            && Answer(setup, s, s.members[u], setup.video.ssrc, Be16(out, 2)) ==
               StillCached(p, Be16(p, 2), StoredBy(post, u))
  {
    var es := pre + [Rtp(u, p)] + post;
    NumberComesBack(setup, pre, u, p, Run(setup, es));
    PacketIsCached(setup, pre, u, p, post);
    AnswerIsCached(setup, es, u, Be16(Forward(setup, Run(setup, pre), u, p).value, 2));
    OnlyHolderAsked(setup, es, u);
  }

  /** Outside push-to-talk the number asked for is the publisher's own, with or without a floor. */
  lemma ConferenceNackFindsOriginal(setup: Setup, pre: seq<Event>, u: string, p: seq<u8>, post: seq<Event>, ssrc: u32)
    requires !setup.ptt && u in Run(setup, pre).members && PayloadType(p) == PT_VIDEO && Stays(post, u)
    requires var s := Run(setup, pre + [Rtp(u, p)] + post);
             u in s.members && TrackOf(s.members[u].tracks, ssrc).Some?
               && TrackOf(s.members[u].tracks, ssrc).value.rtxSsrc.Some?
    ensures var s := Run(setup, pre + [Rtp(u, p)] + post);
            && |p| >= 12
            && Answer(setup, s, s.members[u], ssrc, Be16(p, 2)) == StillCached(p, Be16(p, 2), StoredBy(post, u))
  {
    PacketIsCached(setup, pre, u, p, post);
  }

  /** With no colliding packet stored since, that is the original. */
  lemma UndisturbedIsOriginal(p: seq<u8>, n: u16, post: seq<Event>, u: string)
    requires forall i :: 0 <= i < |StoredBy(post, u)| ==>
                           StoredBy(post, u)[i].key % RtpCache.RTP_CACHE_SIZE != n % RtpCache.RTP_CACHE_SIZE
    ensures StillCached(p, n, StoredBy(post, u)) == Some(p)
  {
    NewestIsHeld(StoredBy(post, u), RtpCache.RTP_CACHE_SIZE, n % RtpCache.RTP_CACHE_SIZE);
  }

  lemma SameSlotIff(m: u16, n: u16)
    ensures m % 512 == n % 512 <==> Sub16(m, n) % 512 == 0
  {
  }

  /**
   The cache keeps a packet through the next 511 numbers: it is answered as long as the sender's
   packets since are fewer than 512 numbers ahead of it, none with its own number.
   */
  lemma {:induction false} KeptFor511(p: seq<u8>, n: u16, post: seq<Event>, u: string)
    requires forall i :: 0 <= i < |StoredBy(post, u)| ==> 0 < Sub16(StoredBy(post, u)[i].key, n) < 512
    ensures StillCached(p, n, StoredBy(post, u)) == Some(p)
  {
    forall i | 0 <= i < |StoredBy(post, u)|
      ensures StoredBy(post, u)[i].key % RtpCache.RTP_CACHE_SIZE != n % RtpCache.RTP_CACHE_SIZE
    {
      SameSlotIff(StoredBy(post, u)[i].key, n);
    }
    UndisturbedIsOriginal(p, n, post, u);
  }

  /** And the packet 512 numbers further takes its place. */
  lemma {:induction false} GoneAfter512(p: seq<u8>, n: u16, post: seq<Event>, u: string, q: seq<u8>)
    requires PayloadType(q) == PT_VIDEO && Be16(q, 2) == Add16(n, 512)
    ensures StillCached(p, n, StoredBy(post + [Rtp(u, q)], u)) == None
  {
    assert (post + [Rtp(u, q)])[..|post|] == post;
    SameSlotIff(Add16(n, 512), n);
  }

  // --- which packet answers ---

  /** Event `e` stores a video packet of `u` in this slot of its cache. */
  predicate Stores(e: Event, u: string, slot: int)
  {
    e.Rtp? && e.user == u && PayloadType(e.packet) == PT_VIDEO && Be16(e.packet, 2) % RtpCache.RTP_CACHE_SIZE == slot
  }

  predicate TakesOut(e: Event, u: string) { e == Leaves(u) || e == Reaped(u) }

  /** The event that brought what is in a slot of the cache of `u`. */
  function StoreAt(setup: Setup, es: seq<Event>, u: string, slot: int): (t: Option<nat>)
    ensures t.Some? ==> t.value < |es| && Stores(es[t.value], u, slot)
  {
    if es == [] then None
    else
      var before, e := es[..|es| - 1], es[|es| - 1];
      if TakesOut(e, u) then None
      else if Stores(e, u, slot) && u in Run(setup, before).members then Some(|before|)
      else StoreAt(setup, before, u, slot)
  }

  lemma {:induction false} CacheTop(setup: Setup, es: seq<Event>, u: string, slot: int)
    ensures var t := StoreAt(setup, es, u, slot);
            if u in Run(setup, es).members then
              Newest(Run(setup, es).members[u].cache, RtpCache.RTP_CACHE_SIZE, slot) == StoredIn(es, t)
            else t.None?
  {
    if es != [] {
      var before, e := es[..|es| - 1], es[|es| - 1];
      CacheTop(setup, before, u, slot);
      CacheTopStep(setup, Run(setup, before), e, u, slot);
    }
  }

  /** What an event stored. */
  function StoredIn(es: seq<Event>, t: Option<nat>): Option<Stored<seq<u8>>>
    requires t.Some? ==> t.value < |es| && es[t.value].Rtp? && |es[t.value].packet| >= 12
  {
    match t
    case Some(t) => Some(Stored(Be16(es[t].packet, 2), es[t].packet))
    case None => None
  }

  lemma {:induction false} CacheTopStep(setup: Setup, s: Room, e: Event, u: string, slot: int)
    ensures var s' := Step(setup, s, e);
            if u !in s'.members then u !in s.members || TakesOut(e, u)
            else if u !in s.members then s'.members[u].cache == [] && !e.Rtp?
            else
              && !TakesOut(e, u)
              && Newest(s'.members[u].cache, RtpCache.RTP_CACHE_SIZE, slot) ==
                 if Stores(e, u, slot) then Some(Stored(Be16(e.packet, 2), e.packet))
                 else Newest(s.members[u].cache, RtpCache.RTP_CACHE_SIZE, slot)
  {
    if u in s.members && !TakesOut(e, u) {
      CacheStep(setup, s, e, u);
      var cache := s.members[u].cache;
      if e.Rtp? && e.user == u && PayloadType(e.packet) == PT_VIDEO {
        NewestAppend(cache, Stored(Be16(e.packet, 2), e.packet), RtpCache.RTP_CACHE_SIZE);
      } else {
        assert cache + [] == cache;
      }
    }
  }

  /** Since event `t`, `u` has stayed, and nothing else went to the slot of what it stored then. */
  ghost predicate Undisturbed(es: seq<Event>, t: nat, u: string)
    requires t < |es| && es[t].Rtp? && |es[t].packet| >= 12
  {
    forall j :: t < j < |es| ==>
                  !TakesOut(es[j], u) && !Stores(es[j], u, Be16(es[t].packet, 2) % RtpCache.RTP_CACHE_SIZE)
  }

  lemma {:induction false} UndisturbedStep(es: seq<Event>, t: nat, u: string)
    requires t < |es| - 1 && es[t].Rtp? && |es[t].packet| >= 12
    ensures var before, e := es[..|es| - 1], es[|es| - 1];
            Undisturbed(es, t, u) <==>
            Undisturbed(before, t, u) && !TakesOut(e, u)
              && !Stores(e, u, Be16(es[t].packet, 2) % RtpCache.RTP_CACHE_SIZE)
  {
    var before := es[..|es| - 1];
    assert forall j :: 0 <= j < |before| ==> before[j] == es[j];
  }

  lemma {:induction false} StoreAtIff(setup: Setup, es: seq<Event>, u: string, slot: int, t: nat)
    requires t < |es|
    ensures StoreAt(setup, es, u, slot) == Some(t) <==>
            Stores(es[t], u, slot) && u in Run(setup, es[..t]).members && Undisturbed(es, t, u)
  {
    var before, e := es[..|es| - 1], es[|es| - 1];
    CacheTop(setup, before, u, slot);
    if t < |before| {
      StoreAtIff(setup, before, u, slot, t);
      assert before[..t] == es[..t] && before[t] == es[t];
      if Stores(es[t], u, slot) {
        UndisturbedStep(es, t, u);
        if u in Run(setup, es[..t]).members && Undisturbed(before, t, u) {
          MemberUntil(setup, before, u, t);
        }
      }
    }
  }

  /** Who was a member at event `t`, a packet, and has not been taken out since still is one. */
  lemma {:induction false} MemberUntil(setup: Setup, es: seq<Event>, u: string, t: nat)
    requires t < |es| && es[t].Rtp? && u in Run(setup, es[..t]).members
    requires forall j :: t < j < |es| ==> !TakesOut(es[j], u)
    ensures u in Run(setup, es).members
  {
    var before, e := es[..|es| - 1], es[|es| - 1];
    if t < |before| {
      assert before[..t] == es[..t] && forall j :: 0 <= j < |before| ==> before[j] == es[j];
      MemberUntil(setup, before, u, t);
    }
    CacheStep(setup, Run(setup, before), e, u);
  }

  /** The event whose packet the cache of `u` gives for number `n`, if any. */
  function AnsweredAt(setup: Setup, es: seq<Event>, u: string, n: u16): (t: Option<nat>)
    ensures t.Some? ==> t.value < |es| && es[t.value].Rtp?
  {
    match StoreAt(setup, es, u, n % RtpCache.RTP_CACHE_SIZE)
    case Some(t) => if Be16(es[t].packet, 2) == n then Some(t) else None
    case None => None
  }

  function PacketAt(es: seq<Event>, t: Option<nat>): Option<seq<u8>>
    requires t.Some? ==> t.value < |es| && es[t.value].Rtp?
  {
    match t
    case Some(t) => Some(es[t].packet)
    case None => None
  }

  lemma {:induction false} AnswerIsStored(setup: Setup, es: seq<Event>, u: string, n: u16)
    requires setup.ptt && HoldsWithVideo(Run(setup, es), u)
    ensures var s := Run(setup, es);
            Answer(setup, s, s.members[u], setup.video.ssrc, n) ==
            PacketAt(es, AnsweredAt(setup, es, u, Rewriter.ReverseSeq(s.video, n)))
  {
    AnswerIsCached(setup, es, u, n);
    CacheTop(setup, es, u, Rewriter.ReverseSeq(Run(setup, es).video, n) % RtpCache.RTP_CACHE_SIZE);
  }

  /** A NACK that is not remapped is answered from the same cache, whichever track it is for. */
  lemma {:induction false} DirectAnswer(setup: Setup, es: seq<Event>, u: string, ssrc: u32, n: u16)
    requires (!setup.ptt || ssrc != setup.video.ssrc) && u in Run(setup, es).members
    requires var track := TrackOf(Run(setup, es).members[u].tracks, ssrc); track.Some? && track.value.rtxSsrc.Some?
    ensures var s := Run(setup, es);
            Answer(setup, s, s.members[u], ssrc, n) == PacketAt(es, AnsweredAt(setup, es, u, n))
  {
    CacheTop(setup, es, u, n % RtpCache.RTP_CACHE_SIZE);
  }

  /** Event `t` brought number `n` of this SSRC from member `u`, and nothing of `u` went to the slot since. */
  ghost predicate LastInSlot(setup: Setup, es: seq<Event>, u: string, ssrc: u32, n: u16, t: nat)
  {
    && t < |es| && Stores(es[t], u, n % RtpCache.RTP_CACHE_SIZE) && u in Run(setup, es[..t]).members
    && Be16(es[t].packet, 2) == n && Be32(es[t].packet, 8) == ssrc && Undisturbed(es, t, u)
  }

  /**
   One cache serves all video tracks of a member, by number alone: a NACK is answered with a
   packet of the SSRC asked for if and only if the last packet of any track to go to the slot
   was that one.
   */
  lemma {:induction false} DirectAnswerRightIff(setup: Setup, es: seq<Event>, u: string, ssrc: u32, n: u16)
    requires (!setup.ptt || ssrc != setup.video.ssrc) && u in Run(setup, es).members
    requires var track := TrackOf(Run(setup, es).members[u].tracks, ssrc); track.Some? && track.value.rtxSsrc.Some?
    ensures var answer := Answer(setup, Run(setup, es), Run(setup, es).members[u], ssrc, n);
            && (answer.Some? ==> |answer.value| >= 12)
            && (answer.Some? && Be32(answer.value, 8) == ssrc <==> exists t :: LastInSlot(setup, es, u, ssrc, n, t))
  {
    DirectAnswer(setup, es, u, ssrc, n);
    var slot := n % RtpCache.RTP_CACHE_SIZE;
    var top := StoreAt(setup, es, u, slot);
    if top.Some? {
      StoreAtIff(setup, es, u, slot, top.value);
      if Be16(es[top.value].packet, 2) == n && Be32(es[top.value].packet, 8) == ssrc {
        assert LastInSlot(setup, es, u, ssrc, n, top.value);
      }
    }
    if t :| LastInSlot(setup, es, u, ssrc, n, t) {
      StoreAtIff(setup, es, u, slot, t);
    }
  }

  lemma {:induction false} SentByMember(setup: Setup, es: seq<Event>, i: nat)
    requires setup.ptt && i < |KindSent(setup, es, true)|
    ensures var t := KindSent(setup, es, true)[i].at;
            t < |es| && es[t].Rtp? && PayloadType(es[t].packet) == PT_VIDEO && es[t].user in Run(setup, es[..t]).members
  {
    var before := es[..|es| - 1];
    if i < |KindSent(setup, before, true)| {
      SentByMember(setup, before, i);
      var t := KindSent(setup, before, true)[i].at;
      assert before[..t] == es[..t];
    }
  }

  /**
   Over every run: a NACK for the number the `i`-th video packet left under is answered from
   the very event that brought that packet if and only if its sender is the holder, the
   rewriter's offset is still the same, and since then the sender has stayed and stored nothing
   else in the slot. The offset is the same at least as long as no new burst has opened. Any
   answer is the packet of the event that last went to the slot the number is looked up in.
   */
  lemma {:induction false} VirtualAnswerRightIff(setup: Setup, es: seq<Event>, u: string, i: nat)
    requires setup.ptt && HoldsWithVideo(Run(setup, es), u) && i < |KindSent(setup, es, true)|
    ensures var s, sent := Run(setup, es), KindSent(setup, es, true);
            var o, t := RewriterRuns.Emitted(setup.video, KindEvents(setup, es, true)), sent[i].at;
            && |o| == |sent| && sent[i].out == o[i].out
            && t < |es| && es[t].Rtp? && es[t].packet == o[i].original && |es[t].packet| >= 12
            && (AnsweredAt(setup, es, u, Rewriter.ReverseSeq(s.video, o[i].now.seqNo)) == Some(t) <==>
                es[t].user == u && RewriterRuns.SameOffset(o, i) && Undisturbed(es, t, u))
            && (o[i].burst == o[|o| - 1].burst ==> RewriterRuns.SameOffset(o, i))
            && Answer(setup, s, s.members[u], setup.video.ssrc, o[i].now.seqNo) ==
               PacketAt(es, AnsweredAt(setup, es, u, Rewriter.ReverseSeq(s.video, o[i].now.seqNo)))
  {
    var o := RewriterRuns.Emitted(setup.video, KindEvents(setup, es, true));
    SentEmission(setup, es, i);
    AnsweredAtIff(setup, es, u, Rewriter.ReverseSeq(Run(setup, es).video, o[i].now.seqNo),
                  KindSent(setup, es, true)[i].at);
    OffsetIsReverse(setup, es, i);
    RewriterRuns.LastBurstKeepsOffset(setup.video, KindEvents(setup, es, true), i);
    AnswerIsStored(setup, es, u, o[i].now.seqNo);
  }

  /** Nobody but `u` announced the SSRC a NACK on the virtual SSRC is looked up under. */
  ghost predicate OnlyOwner(setup: Setup, s: Room, u: string)
  {
    forall w :: w in s.members && Owns(s.members[w], LookupSsrc(setup, s, setup.video.ssrc)) ==> w == u
  }

  /**
   Whoever the scan of the members comes to: every member that can be asked has the packet that
   left, from the very event that brought it, if and only if the holder's cache still has it and
   the holder is the only one to ask.
   */
  lemma {:induction false} VirtualReplyRightIff(setup: Setup, es: seq<Event>, u: string, i: nat)
    requires setup.ptt && HoldsWithVideo(Run(setup, es), u) && i < |KindSent(setup, es, true)|
    ensures var s, t := Run(setup, es), KindSent(setup, es, true)[i].at;
            var o := RewriterRuns.Emitted(setup.video, KindEvents(setup, es, true));
            && |o| == |KindSent(setup, es, true)| && t < |es| && es[t].Rtp? && |es[t].packet| >= 12
            && ((forall w :: w in s.members && Owns(s.members[w], LookupSsrc(setup, s, setup.video.ssrc)) ==>
                               AnsweredAt(setup, es, w, Rewriter.ReverseSeq(s.video, o[i].now.seqNo)) == Some(t)) <==>
                && es[t].user == u && RewriterRuns.SameOffset(o, i) && Undisturbed(es, t, u) && OnlyOwner(setup, s, u))
  {
    var s, t := Run(setup, es), KindSent(setup, es, true)[i].at;
    var o := RewriterRuns.Emitted(setup.video, KindEvents(setup, es, true));
    VirtualAnswerRightIff(setup, es, u, i);
    SentEmission(setup, es, i);
    HolderOwns(setup, es, u);
    forall w | AnsweredAt(setup, es, w, Rewriter.ReverseSeq(s.video, o[i].now.seqNo)) == Some(t)
      ensures es[t].user == w
    {
      AnsweredAtIff(setup, es, w, Rewriter.ReverseSeq(s.video, o[i].now.seqNo), t);
    }
  }

  lemma {:induction false} HolderOwns(setup: Setup, es: seq<Event>, u: string)
    requires setup.ptt && HoldsWithVideo(Run(setup, es), u)
    ensures Owns(Run(setup, es).members[u], LookupSsrc(setup, Run(setup, es), setup.video.ssrc))
  {
    TracksStayInOrder(setup, es, u);
    FirstVideoIsFound(Run(setup, es).members[u].tracks);
  }

  lemma {:induction false} SentEmission(setup: Setup, es: seq<Event>, i: nat)
    requires setup.ptt && i < |KindSent(setup, es, true)|
    ensures var o, t := RewriterRuns.Emitted(setup.video, KindEvents(setup, es, true)), KindSent(setup, es, true)[i].at;
            && |o| == |KindSent(setup, es, true)| && KindSent(setup, es, true)[i].out == o[i].out
            && t < |es| && es[t].Rtp? && es[t].packet == o[i].original && |es[t].packet| >= 12
            && o[i].was.seqNo == Be16(es[t].packet, 2) && PayloadType(es[t].packet) == PT_VIDEO
            && es[t].user in Run(setup, es[..t]).members
  {
    StreamIsOneRun(setup, es, true);
    SentByMember(setup, es, i);
    WasItsNumber(setup.video, RewriterRuns.Emitted(setup.video, KindEvents(setup, es, true)), i);
  }

  lemma {:induction false} OffsetIsReverse(setup: Setup, es: seq<Event>, i: nat)
    requires setup.ptt && i < |RewriterRuns.Emitted(setup.video, KindEvents(setup, es, true))|
    ensures var o := RewriterRuns.Emitted(setup.video, KindEvents(setup, es, true));
            Rewriter.ReverseSeq(Run(setup, es).video, o[i].now.seqNo) == o[i].was.seqNo <==>
              RewriterRuns.SameOffset(o, i)
  {
    StreamFollows(setup, es, true);
    RewriterRuns.ReverseRightIff(setup.video, KindEvents(setup, es, true), i);
  }

  lemma {:induction false} AnsweredAtIff(setup: Setup, es: seq<Event>, u: string, n: u16, t: nat)
    requires t < |es| && es[t].Rtp? && PayloadType(es[t].packet) == PT_VIDEO
             && es[t].user in Run(setup, es[..t]).members
    ensures |es[t].packet| >= 12
    ensures AnsweredAt(setup, es, u, n) == Some(t) <==>
            es[t].user == u && Be16(es[t].packet, 2) == n && Undisturbed(es, t, u)
  {
    StoreAtIff(setup, es, u, n % RtpCache.RTP_CACHE_SIZE, t);
  }

  lemma WasItsNumber(c: Rewriter.Config, o: seq<RewriterRuns.Emission>, i: nat)
    requires RewriterRuns.Continuous(c, o) && i < |o|
    ensures |o[i].original| >= 12 && o[i].was.seqNo == Be16(o[i].original, 2)
  {
    if i > 0 {
      assert RewriterRuns.Follows(c, o[i - 1], o[i]);
    }
  }

  /**
   In any state: provided no member announced the virtual SSRC itself, an answer to a NACK for
   virtual number `n` exists only while somebody has the floor, comes from the holder when its
   video SSRC is its own, and is a packet that would carry `n` under the current base.
   */
  lemma VirtualAnswersAreHolders(setup: Setup, s: Room, w: string, n: u16)
    requires setup.ptt && w in s.members && !(exists u :: u in s.members && Owns(s.members[u], setup.video.ssrc))
    ensures var q := Answer(setup, s, s.members[w], setup.video.ssrc, n);
            q.Some? ==>
              && s.floor.Taken? && s.floor.speaker in s.members
              && (UniqueOwner(s, LookupSsrc(setup, s, setup.video.ssrc)) ==> w == s.floor.speaker)
              && |q.value| >= 12 && Rewriter.VirtualSeq(s.video, Be16(q.value, 2)) == n
  {
    if Answer(setup, s, s.members[w], setup.video.ssrc, n).Some? {
      Rewriter.ReverseInverts(s.video, n);
      if s.floor.Taken? && s.floor.speaker in s.members {
        FirstVideoIsTrack(s.members[s.floor.speaker].tracks);
      }
    }
  }

  lemma {:induction false} FirstVideoIsTrack(tracks: seq<Track>)
    ensures FirstVideo(tracks).Some? ==> TrackOf(tracks, FirstVideo(tracks).value).Some?
  {
    if tracks != [] {
      FirstVideoIsTrack(tracks[1..]);
    }
  }
}
