/**
 A push-to-talk room as one machine: floor, both rewriters, and the publishers' packet
 caches, moved by signaling handlers, the floor timer and incoming packets, each taken as
 one step.
 */
module Ptt {
  import opened Words
  import opened Ring
  import opened Floor
  import Rewriter
  import RewriterRuns
  import Vp8

  const PT_AUDIO := 111
  const PT_VIDEO := 96

  datatype Track = Track(ssrc: u32, video: bool, rtxSsrc: Option<u32>)

  /** A participant as a publisher: announced tracks, packets stored so far, RTX counters. */
  datatype Member = Member(tracks: seq<Track>, cache: seq<Stored<seq<u8>>>, rtxCounter: u32, rtxSeq: u16)

  datatype Setup = Setup(ptt: bool, capacity: nat, audio: Rewriter.Config, video: Rewriter.Config)

  datatype Room = Room(floor: FloorState, audio: Rewriter.State, video: Rewriter.State, members: map<string, Member>)

  const EMPTY_ROOM := Room(Idle, Rewriter.START, Rewriter.START, map[])

  datatype Event =
    | Join(user: string)
    | Publish(user: string, ssrc: u32, video: bool)
    | Leaves(user: string)
    | Reaped(user: string)
    | FloorRequest(user: string, now: nat)
    | FloorRelease(user: string)
    | FloorPing(user: string, now: nat)
    | Timer(now: nat)
    | Rtp(user: string, packet: seq<u8>)
    | Resent(user: string, count: nat)

  // --- signaling ---

  /** What the handlers do to the rewriters after the floor has answered. */
  function Carry(c: Rewriter.Config, s: Rewriter.State, action: Option<FloorAction>): Rewriter.State
  {
    match action
    case Some(Granted(speaker)) => Rewriter.Switched(c, s, speaker)
    case Some(Released(_)) => Rewriter.Cleared(s)
    case Some(Revoked(_, _)) => Rewriter.Cleared(s)
    case _ => s
  }

  function OnFloor(setup: Setup, s: Room, e: Floor.Event, now: nat): Room
  {
    var (floor, action) := React(s.floor, e, now);
    s.(floor := floor, audio := Carry(setup.audio, s.audio, action), video := Carry(setup.video, s.video, action))
  }

  /** The floor event a handler raises; only a ping reaches the floor outside push-to-talk. */
  function FloorEventOf(setup: Setup, e: Event): Option<(Floor.Event, nat)>
  {
    match e
    case FloorPing(user, now) => Some((Ping(user), now))
    case FloorRequest(user, now) => if setup.ptt then Some((Request(user), now)) else None
    case FloorRelease(user) => if setup.ptt then Some((Release(user), 0)) else None
    case Timer(now) => if setup.ptt then Some((Check, now)) else None
    case Leaves(user) => if setup.ptt then Some((Leave(user), 0)) else None
    case _ => None
  }

  function AddTrack(m: Member, ssrc: u32, video: bool): Member
  {
    if exists i :: 0 <= i < |m.tracks| && m.tracks[i].ssrc == ssrc then m
    else if video then
      m.(tracks := m.tracks + [Track(ssrc, true, Some(Add32(Add32(ssrc, 1000), m.rtxCounter)))],
         rtxCounter := Add32(m.rtxCounter, 1))
    else
      m.(tracks := m.tracks + [Track(ssrc, false, None)])
  }

  // --- packets ---

  function PayloadType(p: seq<u8>): int
  {
    if |p| < 12 then 0 else p[1] % 0x80
  }

  /** Opus is payload type 111 and VP8 is 96, whatever the marker. */
  lemma KindsAre(p: seq<u8>)
    requires |p| >= 12
    ensures PayloadType(p) == PT_AUDIO <==> p[1] in {111, 111 + 0x80}
    ensures PayloadType(p) == PT_VIDEO <==> p[1] in {96, 96 + 0x80}
  {
  }

  predicate MayPass(setup: Setup, s: Room, user: string)
  {
    setup.ptt ==> HeldBy(s.floor, user)
  }

  /** Video packets are cached before the gate, under their own number. */
  function Caching(m: Member, p: seq<u8>): Member
  {
    if PayloadType(p) == PT_VIDEO then m.(cache := m.cache + [Stored(Be16(p, 2), p)]) else m
  }

  /** What the room fans out for a packet of `user`, if anything. */
  function Forward(setup: Setup, s: Room, user: string, p: seq<u8>): Option<seq<u8>>
  {
    if user !in s.members || !MayPass(setup, s, user) then None
    else if !setup.ptt then Some(p)
    else if PayloadType(p) == PT_AUDIO then Rewritten(setup.audio, s.audio, user, p, false)
    else if PayloadType(p) == PT_VIDEO then Rewritten(setup.video, s.video, user, p, Vp8.Keyframe(p))
    else Some(p)
  }

  function Rewritten(c: Rewriter.Config, s: Rewriter.State, user: string, p: seq<u8>, keyframe: bool): Option<seq<u8>>
  {
    match Rewriter.Verdict(s, p, user, keyframe)
    case Ok => Some(Rewriter.Output(c, s, p, user, keyframe))
    case PendingKeyframe => None
    case Skip => Some(p)
  }

  function OnPacket(setup: Setup, s: Room, user: string, p: seq<u8>): Room
  {
    if user !in s.members then s
    else
      var s := s.(members := s.members[user := Caching(s.members[user], p)]);
      if !setup.ptt || !MayPass(setup, s, user) then s
      else if PayloadType(p) == PT_AUDIO then
        s.(audio := Rewriter.Advanced(setup.audio, s.audio, p, user, false))
      else if PayloadType(p) == PT_VIDEO then
        s.(video := Rewriter.Advanced(setup.video, s.video, p, user, Vp8.Keyframe(p)))
      else s
  }

  function Step(setup: Setup, s: Room, e: Event): Room
  {
    var s := match FloorEventOf(setup, e) case Some((fe, now)) => OnFloor(setup, s, fe, now) case None => s;
    match e
    case Join(user) =>
      if |s.members| >= setup.capacity || user in s.members then s
      else s.(members := s.members[user := Member([], [], 0, 0)])
    case Publish(user, ssrc, video) =>
      if user in s.members then s.(members := s.members[user := AddTrack(s.members[user], ssrc, video)]) else s
    case Leaves(user) => s.(members := s.members - {user})
    case Reaped(user) => s.(members := s.members - {user})
    case Rtp(user, p) => OnPacket(setup, s, user, p)
    case Resent(user, count) =>
      if user in s.members
      then s.(members := s.members[user := s.members[user].(rtxSeq := Wrap16(s.members[user].rtxSeq + count))]) else s
    case _ => s
  }

  function Run(setup: Setup, es: seq<Event>): Room
  {
    if es == [] then EMPTY_ROOM else Step(setup, Run(setup, es[..|es| - 1]), es[|es| - 1])
  }

  lemma RunOne(setup: Setup, es: seq<Event>, e: Event)
    ensures Run(setup, es + [e]) == Step(setup, Run(setup, es), e)
  {
    assert (es + [e])[..|es|] == es;
  }

  // --- floor and rewriters agree ---

  ghost predicate Agree(s: Room)
  {
    Holder(s.floor) == s.audio.speaker == s.video.speaker
  }

  lemma StepAgrees(setup: Setup, s: Room, e: Event)
    requires Agree(s)
    ensures Agree(Step(setup, s, e))
  {
  }

  /** In every reachable state the floor holder and both rewriters' speakers are the same. */
  lemma {:induction false} AlwaysAgree(setup: Setup, es: seq<Event>)
    ensures Agree(Run(setup, es))
  {
    if es != [] {
      AlwaysAgree(setup, es[..|es| - 1]);
      StepAgrees(setup, Run(setup, es[..|es| - 1]), es[|es| - 1]);
    }
  }

  /**
   In every reachable state of a push-to-talk room: only the floor holder's packets are
   forwarded; the holder's audio and video packets are never skipped by the rewriter, and
   leave under the room's SSRC for their kind; other payload types leave as they came.
   */
  lemma ForwardedFromHolder(setup: Setup, es: seq<Event>, user: string, p: seq<u8>)
    requires setup.ptt && Forward(setup, Run(setup, es), user, p).Some?
    ensures var s := Run(setup, es);
            var out := Forward(setup, s, user, p).value;
            && HeldBy(s.floor, user) && |out| == |p|
            && (PayloadType(p) == PT_AUDIO ==>
                Rewriter.Verdict(s.audio, p, user, false) == Rewriter.Ok && Be32(out, 8) == setup.audio.ssrc)
            && (PayloadType(p) == PT_VIDEO ==>
                  Rewriter.Verdict(s.video, p, user, Vp8.Keyframe(p)) == Rewriter.Ok
                    && Be32(out, 8) == setup.video.ssrc)
            && (PayloadType(p) != PT_AUDIO && PayloadType(p) != PT_VIDEO ==> out == p)
  {
    AlwaysAgree(setup, es);
  }

  // --- the floor of a room is one floor run ---

  /** The clock a handler reads, if it reads it. */
  function ClockOf(e: Event): Option<nat>
  {
    match e
    case FloorRequest(_, now) => Some(now)
    case FloorPing(_, now) => Some(now)
    case Timer(now) => Some(now)
    case _ => None
  }

  function LastClock(es: seq<Event>): nat
  {
    if es == [] then 0
    else
      match ClockOf(es[|es| - 1])
      case Some(now) => now
      case None => LastClock(es[..|es| - 1])
  }

  ghost predicate ClockedRoom(es: seq<Event>)
  {
    es == [] || (LastClock(es[..|es| - 1]) <= LastClock(es) && ClockedRoom(es[..|es| - 1]))
  }

  /** What the floor sees of a room; a release or a leave is given the last time the clock was read. */
  function FloorRun(setup: Setup, es: seq<Event>): seq<Timed>
  {
    if es == [] then []
    else
      var before := FloorRun(setup, es[..|es| - 1]);
      match FloorEventOf(setup, es[|es| - 1])
      case Some((fe, _)) => before + [Timed(LastClock(es), fe)]
      case None => before
  }

  lemma {:induction false} FloorIsOneRun(setup: Setup, es: seq<Event>)
    ensures Run(setup, es).floor == Floor.Run(FloorRun(setup, es))
  {
    if es != [] {
      var before, e := es[..|es| - 1], es[|es| - 1];
      FloorIsOneRun(setup, before);
      FloorMoves(setup, Run(setup, before), e, LastClock(es));
      if FloorEventOf(setup, e).Some? {
        assert FloorRun(setup, es)[..|FloorRun(setup, before)|] == FloorRun(setup, before);
      }
    }
  }

  lemma FloorMoves(setup: Setup, s: Room, e: Event, clock: nat)
    requires ClockOf(e).Some? ==> ClockOf(e) == Some(clock)
    ensures Step(setup, s, e).floor ==
            match FloorEventOf(setup, e) case Some((fe, _)) => React(s.floor, fe, clock).0 case None => s.floor
  {
  }

  lemma {:induction false} FloorRunClocked(setup: Setup, es: seq<Event>)
    requires ClockedRoom(es)
    ensures Clocked(FloorRun(setup, es)) && Now(FloorRun(setup, es)) <= LastClock(es)
  {
    if es != [] {
      FloorRunClocked(setup, es[..|es| - 1]);
    }
  }

  /** The floor's limits in the room, from the floor's last check or first event on. */
  lemma {:induction false} RoomLimitsHold(setup: Setup, es: seq<Event>, now: nat, period: nat)
    requires ClockedRoom(es) && LastClock(es) <= now <= LastCheck(FloorRun(setup, es)) + period
    ensures var floor := Run(setup, es).floor;
            floor.Taken? ==> now - floor.burstStart <= 30_000 + period && now - floor.lastPing <= 5_000 + period
  {
    FloorIsOneRun(setup, es);
    FloorRunClocked(setup, es);
    BurstIsBounded(FloorRun(setup, es), now, period);
  }

  /** Every timer tick of a push-to-talk room is a check of its floor. */
  lemma {:induction false} TickIsCheck(setup: Setup, es: seq<Event>, k: nat)
    requires setup.ptt && ClockedRoom(es) && k < |es| && es[k].Timer?
    ensures FloorRun(setup, es) != [] && es[k].now <= LastCheck(FloorRun(setup, es)) <= LastClock(es)
  {
    var before, e := es[..|es| - 1], es[|es| - 1];
    if k < |before| {
      TickIsCheck(setup, before, k);
      if FloorEventOf(setup, e).Some? {
        assert FloorRun(setup, es)[..|FloorRun(setup, before)|] == FloorRun(setup, before);
      }
    }
  }

  /**
   So at most `period` after any timer tick nobody has kept the floor for more than 30 s and the
   period, nor for more than 5 s and the period after the last ping; this also ends the turn of a
   member the reaper took.
   */
  lemma {:induction false} RoomBurstIsBounded(setup: Setup, es: seq<Event>, k: nat, now: nat, period: nat)
    requires setup.ptt && ClockedRoom(es) && k < |es| && es[k].Timer?
    requires LastClock(es) <= now <= es[k].now + period
    ensures var floor := Run(setup, es).floor;
            floor.Taken? ==> now - floor.burstStart <= 30_000 + period && now - floor.lastPing <= 5_000 + period
  {
    TickIsCheck(setup, es, k);
    RoomLimitsHold(setup, es, now, period);
  }

  /** A holder that releases the floor or leaves the room leaves floor and rewriters to nobody. */
  lemma {:induction false} RoomEndFrees(setup: Setup, es: seq<Event>, user: string, e: Event)
    requires setup.ptt && HeldBy(Run(setup, es).floor, user) && e in {FloorRelease(user), Leaves(user)}
    ensures var s := Step(setup, Run(setup, es), e);
            s.floor == Idle && s.audio.speaker.None? && s.video.speaker.None? && (e.Leaves? ==> user !in s.members)
  {
  }

  /** A ping of the holder, or the request of an idle floor, at this time. */
  ghost predicate SignOfLifeAt(setup: Setup, es: seq<Event>, k: nat, user: string, at: nat)
    requires k < |es|
  {
    || (es[k] == FloorPing(user, at) && HeldBy(Run(setup, es[..k]).floor, user))
    || (es[k] == FloorRequest(user, at) && Run(setup, es[..k]).floor == Idle)
  }

  lemma RoomKeepStep(setup: Setup, s: Room, e: Event, clock: nat, user: string, start: nat, at: nat)
    requires Keeps(s.floor, user, start, at) && e != FloorRelease(user) && e != Leaves(user)
    requires ClockOf(e).Some? ==> ClockOf(e) == Some(clock)
    requires at <= clock <= start + 30_000 && clock <= at + 5_000
    ensures Keeps(Step(setup, s, e).floor, user, start, at)
  {
    FloorMoves(setup, s, e, clock);
    match FloorEventOf(setup, e) {
      case Some((fe, _)) => KeepStep(s.floor, fe, clock, user, start, at);
      case None =>
    }
  }

  lemma {:induction false} ClockAfter(setup: Setup, es: seq<Event>, k: nat)
    requires ClockedRoom(es) && k < |es| && ClockOf(es[k]).Some?
    ensures ClockOf(es[k]).value <= LastClock(es)
  {
    if k < |es| - 1 {
      ClockAfter(setup, es[..|es| - 1], k);
    }
  }

  /** The same in the room: nobody loses the floor early, whatever packets, joins and requests come. */
  lemma {:induction false} RoomKeepsFloor(setup: Setup, es: seq<Event>, k: nat, user: string, at: nat)
    requires setup.ptt && ClockedRoom(es) && k < |es| && SignOfLifeAt(setup, es, k, user, at)
    requires forall j :: k < j < |es| ==> es[j] != FloorRelease(user) && es[j] != Leaves(user)
    requires var floor := Run(setup, es[..k]).floor;
             LastClock(es) <= (if floor.Idle? then at else floor.burstStart) + 30_000 && LastClock(es) <= at + 5_000
    ensures var was := Run(setup, es[..k]).floor;
            Keeps(Run(setup, es).floor, user, if was.Idle? then at else was.burstStart, at)
  {
    var before, e := es[..|es| - 1], es[|es| - 1];
    ClockAfter(setup, es, k);
    if k < |before| {
      assert before[..k] == es[..k] && before[k] == es[k];
      assert forall j :: 0 <= j < |before| ==> before[j] == es[j];
      RoomKeepsFloor(setup, before, k, user, at);
      var was := Run(setup, es[..k]).floor;
      RoomKeepStep(setup, Run(setup, before), e, LastClock(es), user, if was.Idle? then at else was.burstStart, at);
    } else {
      assert before == es[..k];
      FloorMoves(setup, Run(setup, before), e, at);
    }
  }

  // --- what is forwarded ---

  /** Outside push-to-talk every member's packet is forwarded as it came, and nobody else's. */
  lemma ConferenceForwards(setup: Setup, s: Room, user: string, p: seq<u8>)
    requires !setup.ptt
    ensures Forward(setup, s, user, p) == if user in s.members then Some(p) else None
  {
  }

  /** The event grants the floor, for the first time or again. */
  predicate Grants(setup: Setup, s: Room, e: Event)
  {
    setup.ptt && e.FloorRequest? && (s.floor.Idle? || s.floor.speaker == e.user)
  }

  /** A video packet has been forwarded since the last grant. */
  predicate VideoSinceGrant(setup: Setup, es: seq<Event>)
  {
    es != [] &&
    var before, e := es[..|es| - 1], es[|es| - 1];
    !Grants(setup, Run(setup, before), e) &&
    (VideoSinceGrant(setup, before) ||
     (e.Rtp? && PayloadType(e.packet) == PT_VIDEO && Forward(setup, Run(setup, before), e.user, e.packet).Some?))
  }

  /** What the video rewriter waits for while somebody has the floor, and the audio rewriter with it. */
  ghost predicate WaitsAsTold(setup: Setup, s: Room, open: bool)
  {
    s.floor.Taken? ==>
      && s.video.pendingKeyframe == (setup.video.requireKeyframe && !open)
      && (s.audio.pendingKeyframe ==> setup.audio.requireKeyframe)
  }

  lemma FloorWaits(setup: Setup, s: Room, fe: Floor.Event, now: nat, open: bool)
    requires WaitsAsTold(setup, s, open)
    ensures var granted := fe.Request? && (s.floor.Idle? || s.floor.speaker == fe.user);
            WaitsAsTold(setup, OnFloor(setup, s, fe, now), open && !granted)
  {
  }

  lemma PacketWaits(setup: Setup, s: Room, user: string, p: seq<u8>, open: bool)
    requires setup.ptt && Agree(s) && WaitsAsTold(setup, s, open)
    ensures WaitsAsTold(setup, OnPacket(setup, s, user, p),
                        open || (PayloadType(p) == PT_VIDEO && Forward(setup, s, user, p).Some?))
  {
  }

  lemma WaitsStep(setup: Setup, s: Room, e: Event, open: bool)
    requires setup.ptt && Agree(s) && WaitsAsTold(setup, s, open)
    ensures WaitsAsTold(setup, Step(setup, s, e),
                        && !Grants(setup, s, e)
                        && (open ||
                            (e.Rtp? && PayloadType(e.packet) == PT_VIDEO && Forward(setup, s, e.user, e.packet).Some?)))
  {
    if e.Rtp? {
      PacketWaits(setup, s, e.user, e.packet, open);
    } else {
      match FloorEventOf(setup, e) {
        case Some((fe, now)) => FloorWaits(setup, s, fe, now, open);
        case None =>
      }
    }
  }

  lemma {:induction false} AlwaysWaitsAsTold(setup: Setup, es: seq<Event>)
    requires setup.ptt
    ensures WaitsAsTold(setup, Run(setup, es), VideoSinceGrant(setup, es))
  {
    if es != [] {
      var before := es[..|es| - 1];
      AlwaysWaitsAsTold(setup, before);
      AlwaysAgree(setup, before);
      WaitsStep(setup, Run(setup, before), es[|es| - 1], VideoSinceGrant(setup, before));
    }
  }

  /**
   In every reachable push-to-talk state: a member's packet is forwarded if and only if the member
   has the floor and, for a video packet, it is a keyframe or a video packet has been forwarded
   since the last grant, repeated ones included.
   */
  lemma {:induction false} ForwardedIff(setup: Setup, es: seq<Event>, user: string, p: seq<u8>)
    requires setup.ptt && setup.video.requireKeyframe && !setup.audio.requireKeyframe
    ensures var s := Run(setup, es);
            Forward(setup, s, user, p).Some? <==>
            && user in s.members && HeldBy(s.floor, user)
            && (PayloadType(p) == PT_VIDEO ==> Vp8.Keyframe(p) || VideoSinceGrant(setup, es))
  {
    AlwaysAgree(setup, es);
    AlwaysWaitsAsTold(setup, es);
  }

  // --- each outgoing stream is one rewriter run ---

  function TypeOf(video: bool): int { if video then PT_VIDEO else PT_AUDIO }

  function ConfigOf(setup: Setup, video: bool): Rewriter.Config { if video then setup.video else setup.audio }

  function StateOf(s: Room, video: bool): Rewriter.State { if video then s.video else s.audio }

  /** Only the video rewriter is told of keyframes. */
  function KeyOf(video: bool, p: seq<u8>): bool { video && Vp8.Keyframe(p) }

  /** What the rewriter of a kind sees of a room event. */
  function Seen(setup: Setup, s: Room, e: Event, video: bool): (r: seq<RewriterRuns.Event>)
    ensures |r| <= 1
  {
    match FloorEventOf(setup, e)
    case Some((fe, now)) =>
      (match React(s.floor, fe, now).1
       case Some(Granted(user)) => [RewriterRuns.Switch(user)]
       case Some(Released(_)) => [RewriterRuns.Clear]
       case Some(Revoked(_, _)) => [RewriterRuns.Clear]
       case _ => [])
    case None =>
      if e.Rtp? && setup.ptt && e.user in s.members && HeldBy(s.floor, e.user) && PayloadType(e.packet) == TypeOf(video)
      then [RewriterRuns.Arrive(e.packet, e.user, KeyOf(video, e.packet))]
      else []
  }

  function KindEvents(setup: Setup, es: seq<Event>, video: bool): seq<RewriterRuns.Event>
  {
    if es == [] then []
    else
      var before, e := es[..|es| - 1], es[|es| - 1];
      KindEvents(setup, before, video) + Seen(setup, Run(setup, before), e, video)
  }

  /** A packet the room sent out: the event that brought it, and its bytes. */
  datatype Sent = Sent(at: nat, out: seq<u8>)

  function SentBy(setup: Setup, s: Room, e: Event, at: nat, video: bool): seq<Sent>
  {
    if e.Rtp? && PayloadType(e.packet) == TypeOf(video) && Forward(setup, s, e.user, e.packet).Some?
    then [Sent(at, Forward(setup, s, e.user, e.packet).value)]
    else []
  }

  /** The packets of a kind the room sends out, in order. */
  function KindSent(setup: Setup, es: seq<Event>, video: bool): seq<Sent>
  {
    if es == [] then []
    else
      var before, e := es[..|es| - 1], es[|es| - 1];
      KindSent(setup, before, video) + SentBy(setup, Run(setup, before), e, |es| - 1, video)
  }

  /** What the rewriter emitted of the room's packets is what the room sent. */
  ghost predicate SentAre(es: seq<Event>, sent: seq<Sent>, o: seq<RewriterRuns.Emission>)
  {
    && |sent| == |o|
    && forall i :: 0 <= i < |o| ==>
                     && sent[i].at < |es| && sent[i].out == o[i].out
                     && es[sent[i].at].Rtp? && es[sent[i].at].packet == o[i].original
  }

  /** The rewriter's state after what it sees of one event. */
  function SeenState(c: Rewriter.Config, s: Rewriter.State, seen: seq<RewriterRuns.Event>): Rewriter.State
  {
    if |seen| != 1 then s
    else
      match seen[0]
      case Switch(user) => Rewriter.Switched(c, s, user)
      case Clear => Rewriter.Cleared(s)
      case Arrive(p, sender, keyframe) => Rewriter.Advanced(c, s, p, sender, keyframe)
  }

  lemma StepIsSeen(setup: Setup, s: Room, e: Event, video: bool)
    ensures StateOf(Step(setup, s, e), video) ==
            SeenState(ConfigOf(setup, video), StateOf(s, video), Seen(setup, s, e, video))
  {
  }

  /** What the rewriter lets through of what it sees: the packet as it came and as it leaves. */
  function Through(c: Rewriter.Config, s: Rewriter.State, seen: seq<RewriterRuns.Event>): Option<(seq<u8>, seq<u8>)>
  {
    if |seen| == 1 && seen[0].Arrive?
      && Rewriter.Verdict(s, seen[0].packet, seen[0].sender, seen[0].keyframe) == Rewriter.Ok
    then Some((seen[0].packet, Rewriter.Output(c, s, seen[0].packet, seen[0].sender, seen[0].keyframe)))
    else None
  }

  lemma SentIsSeen(setup: Setup, s: Room, e: Event, at: nat, video: bool)
    requires setup.ptt && Agree(s)
    ensures match Through(ConfigOf(setup, video), StateOf(s, video), Seen(setup, s, e, video))
            case Some((p, out)) => e.Rtp? && e.packet == p && SentBy(setup, s, e, at, video) == [Sent(at, out)]
            case None => SentBy(setup, s, e, at, video) == []
  {
  }

  lemma OneThrough(c: Rewriter.Config, ves: seq<RewriterRuns.Event>, seen: seq<RewriterRuns.Event>)
    requires |seen| <= 1
    ensures RewriterRuns.Run(c, ves + seen) == SeenState(c, RewriterRuns.Run(c, ves), seen)
    ensures match Through(c, RewriterRuns.Run(c, ves), seen)
            case Some((p, out)) =>
              var o := RewriterRuns.Emitted(c, ves + seen);
              && |o| == |RewriterRuns.Emitted(c, ves)| + 1 && o[..|o| - 1] == RewriterRuns.Emitted(c, ves)
              && o[|o| - 1].original == p && o[|o| - 1].out == out
            case None => RewriterRuns.Emitted(c, ves + seen) == RewriterRuns.Emitted(c, ves)
  {
    if seen == [] {
      assert ves + seen == ves;
    } else {
      assert (ves + seen)[..|ves|] == ves && (ves + seen)[|ves|] == seen[0];
    }
  }

  lemma OneMoreSent(es: seq<Event>, e: Event, sent: seq<Sent>, o: seq<RewriterRuns.Emission>,
                    o': seq<RewriterRuns.Emission>, through: Option<(seq<u8>, seq<u8>)>)
    requires SentAre(es, sent, o)
    requires match through
             case Some((p, out)) =>
               && |o'| == |o| + 1 && o'[..|o|] == o && o'[|o|].original == p && o'[|o|].out == out && e.Rtp?
                  && e.packet == p
             case None => o' == o
    ensures SentAre(es + [e], sent + (match through case Some((_, out)) => [Sent(|es|, out)] case None => []), o')
  {
    forall i | 0 <= i < |o'| && i < |o| ensures o'[i] == o[i] {
      assert o'[i] == o'[..|o|][i];
    }
  }

  /** The rewriter of the kind has run through `ves`, and what it emitted is what was sent. */
  ghost predicate Streams(c: Rewriter.Config, es: seq<Event>, state: Rewriter.State,
                          ves: seq<RewriterRuns.Event>, sent: seq<Sent>)
  {
    state == RewriterRuns.Run(c, ves) && SentAre(es, sent, RewriterRuns.Emitted(c, ves))
  }

  lemma KindsUnfold(setup: Setup, es: seq<Event>, video: bool)
    requires es != []
    ensures var before, e := es[..|es| - 1], es[|es| - 1];
            && before + [e] == es && Run(setup, es) == Step(setup, Run(setup, before), e)
            && KindEvents(setup, es, video) ==
               KindEvents(setup, before, video) + Seen(setup, Run(setup, before), e, video)
            && KindSent(setup, es, video) ==
               KindSent(setup, before, video) + SentBy(setup, Run(setup, before), e, |before|, video)
  {
  }

  lemma {:induction false} StreamStep(setup: Setup, es: seq<Event>, s: Room, e: Event, video: bool,
                                      ves: seq<RewriterRuns.Event>, sent: seq<Sent>)
    requires setup.ptt && Agree(s) && Streams(ConfigOf(setup, video), es, StateOf(s, video), ves, sent)
    ensures Streams(ConfigOf(setup, video), es + [e], StateOf(Step(setup, s, e), video),
                    ves + Seen(setup, s, e, video), sent + SentBy(setup, s, e, |es|, video))
  {
    var c, seen := ConfigOf(setup, video), Seen(setup, s, e, video);
    StepIsSeen(setup, s, e, video);
    SentIsSeen(setup, s, e, |es|, video);
    OneThrough(c, ves, seen);
    OneMoreSent(es, e, sent, RewriterRuns.Emitted(c, ves), RewriterRuns.Emitted(c, ves + seen),
                Through(c, StateOf(s, video), seen));
  }

  lemma {:induction false} StreamFollows(setup: Setup, es: seq<Event>, video: bool)
    requires setup.ptt
    ensures Streams(ConfigOf(setup, video), es, StateOf(Run(setup, es), video),
                    KindEvents(setup, es, video), KindSent(setup, es, video))
  {
    if es != [] {
      var before, e := es[..|es| - 1], es[|es| - 1];
      StreamFollows(setup, before, video);
      AlwaysAgree(setup, before);
      StreamStep(setup, before, Run(setup, before), e, video, KindEvents(setup, before, video),
                 KindSent(setup, before, video));
      KindsUnfold(setup, es, video);
    }
  }

  /**
   Every run of a push-to-talk room drives each of its rewriters through a run of its own, and
   what leaves the room of that kind is what that run emits: both streams are continuous.
   */
  lemma {:induction false} StreamIsOneRun(setup: Setup, es: seq<Event>, video: bool)
    requires setup.ptt
    ensures var c, ves := ConfigOf(setup, video), KindEvents(setup, es, video);
            && StateOf(Run(setup, es), video) == RewriterRuns.Run(c, ves)
            && SentAre(es, KindSent(setup, es, video), RewriterRuns.Emitted(c, ves))
            && RewriterRuns.Continuous(c, RewriterRuns.Emitted(c, ves))
  {
    StreamFollows(setup, es, video);
    RewriterRuns.RunIsContinuous(ConfigOf(setup, video), KindEvents(setup, es, video));
  }

  // --- asking for the floor again ---

  /**
   A holder's repeated request leaves the floor alone but restarts both rewriters; the room is
   only unchanged if both were still waiting for the turn's first packet.
   */
  lemma {:induction false} RepeatedRequestRestarts(setup: Setup, es: seq<Event>, u: string, now: nat)
    requires setup.ptt && HeldBy(Run(setup, es).floor, u)
    ensures var s := Run(setup, es);
            var s' := Step(setup, s, FloorRequest(u, now));
            && s' == s.(audio := Rewriter.Switched(setup.audio, s.audio, u),
                        video := Rewriter.Switched(setup.video, s.video, u))
            && (s' == s <==>
                && s.audio.awaitingFirst && s.audio.pendingKeyframe == setup.audio.requireKeyframe
                && s.video.awaitingFirst && s.video.pendingKeyframe == setup.video.requireKeyframe)
  {
    AlwaysAgree(setup, es);
  }

  /** Nobody speaks, or a keyframe is awaited. */
  predicate Quiet(s: Room) { s.video.speaker.None? || s.video.pendingKeyframe }

  predicate IsKeyframe(e: Event) { e.Rtp? && PayloadType(e.packet) == PT_VIDEO && Vp8.Keyframe(e.packet) }

  lemma StepStaysQuiet(setup: Setup, s: Room, e: Event)
    requires setup.video.requireKeyframe && Quiet(s) && !IsKeyframe(e)
    ensures Quiet(Step(setup, s, e))
  {
  }

  lemma {:induction false} StaysQuiet(setup: Setup, es: seq<Event>, more: seq<Event>)
    requires setup.video.requireKeyframe && Quiet(Run(setup, es)) && forall e :: e in more ==> !IsKeyframe(e)
    ensures Quiet(Run(setup, es + more))
  {
    if more == [] {
      assert es + more == es;
    } else {
      var less := more[..|more| - 1];
      StaysQuiet(setup, es, less);
      StepStaysQuiet(setup, Run(setup, es + less), more[|more| - 1]);
      RunOne(setup, es + less, more[|more| - 1]);
      assert (es + less) + [more[|more| - 1]] == es + more;
    }
  }

  /** So the holder's picture stops: until a keyframe comes, no inter frame is forwarded any more. */
  lemma {:induction false} RepeatedRequestStopsVideo(setup: Setup, es: seq<Event>, u: string, now: nat,
                                                     more: seq<Event>, w: string, p: seq<u8>)
    requires setup.ptt && setup.video.requireKeyframe && HeldBy(Run(setup, es).floor, u)
    requires forall e :: e in more ==> !IsKeyframe(e)
    requires PayloadType(p) == PT_VIDEO && !Vp8.Keyframe(p)
    ensures Forward(setup, Run(setup, es + [FloorRequest(u, now)] + more), w, p).None?
  {
    var again := es + [FloorRequest(u, now)];
    assert again[..|es|] == es;
    RepeatedRequestRestarts(setup, es, u, now);
    StaysQuiet(setup, again, more);
    AlwaysAgree(setup, again + more);
  }
}
