# Verification model of light-livechat

light-livechat forwards the media of conference and push-to-talk rooms through one UDP port.
This project models the parts of it that decide what is sent to whom, and proves what they
promise over all inputs and whole runs:

- **Transport-wide congestion control.** `Twcc` is the recorder (a ring of 8192 slots behind a
  wrapping maximum and a moving window) and the feedback builder; `TwccFormat` is a reader of
  the feedback format of draft-holmer-rmcat-transport-wide-cc-extensions-01, section 3.1, and
  the proof that it recovers what the builder wrote; `TwccTime` bounds the error of the
  recovered arrival times; `TwccRuns` compares whole runs with a machine on unbounded sequence
  numbers; `TwccExtension` is the header-extension parser.
- **Push-to-talk.** `Floor` is the floor controller with its runs; `Rewriter` and
  `RewriterRuns` the stream rewriter; `Vp8` the keyframe detector; `RtpCache` the cache of sent
  packets; `Ptt` a whole room as one machine moved by signaling, timer, reaper and packets;
  `PttNack` the answering of NACKs in it, `PttFailures` concrete runs that go wrong; `PttRoom`
  the same room as objects updated in place, proved to take the machine's steps.
- **Rooms and the hub.** `HubModel`, `HubExact` and `HubReap` are the rooms' and the hub's
  indices as values; `Rooms` a room on shared participant objects; `RoomHub` the hub with its
  loops.
- **Codecs.** `Stun` and `StunResponse` (RFC 8489), `Rtcp` (compound splitting, Generic NACK
  of RFC 4585, RTX of RFC 4588, REMB).
- `Ring` is the theory of a ring keyed by a wrapping number that `Twcc` and `RtpCache` share,
  `Words` the words, byte order and small datatypes.

Where the code changes things step by step the model is a method or a class with the same
fields, proved against a function of the old state; what the program promises is proved about
those functions and their runs. Octets and words are integer subset types: masks and shifts
appear as remainder and division, the setting of clear bits as addition. Handlers, timer ticks
and packets are atomic steps. Room ids and ufrags come from outside; that they are fresh is a
condition, stated where it is needed. HMAC-SHA1 and CRC-32 are arbitrary functions.

Run `dafny verify dfyconfig.toml` to check everything.

## What the proofs found

- Feedback messages: `src/transport/udp/twcc.rs:412-416` counts twelve octets for two SSRCs.
  The length field and the multiple of four hold, but every message ends with four zero octets
  that neither the chunks, nor the deltas, nor the announced padding account for
  (`TwccFormat.FeedbackReads`, the 4 in its report).
- Feedback symbols: the recorder tells numbers apart by 16 bits, and the guard's jump leaves old
  arrivals in their slots. A number that never arrived is reported as received exactly when the
  newest arrival in its slot is another one with the same low 16 bits, and this happens
  (`TwccRuns.FalseSymbolIff`, `TwccRuns.AliasedRunReports`).
- Feedback times: rounding is per delta, so the reading error grows with the position in the
  message (`TwccTime.DriftIsReal`), and a clamped delta shifts every later arrival of the message
  (the `Clipped` term of `TwccTime.FeedbackTimes`; `TwccRuns.ClampedRunReads` is such a run).
- Rewriter: `last_virtual_seq` is the last packet's, not the largest. When a burst ends on a
  packet that is not its furthest, packets of any later burst can leave under numbers already
  used. Which do is decided by their places in the stream, counted from the originals
  (`RewriterRuns.NumberReusedIff`): the next burst's opening packet
  (`RewriterRuns.LateTailIsReused`), a later one (`RewriterRuns.LaterPacketIsReused`), or one of
  a burst further on (`RewriterRuns.ThirdBurstReuses`). When every burst but the last ends on its
  furthest packet and every burst but the first opens on its nearest, bursts share a number only
  2^16 places or more apart (`RewriterRuns.TidyRunReuses`).
- A repeated floor request by the holder, meant to change nothing, restarts both rewriters
  unless both still await the turn's first packet (`Ptt.RepeatedRequestRestarts`); video then
  stops until a keyframe comes (`Ptt.RepeatedRequestStopsVideo`,
  `PttFailures.AskingAgainStopsVideo`).
- NACKs on the virtual SSRC: the number asked for is mapped back under the present base and
  looked up at the present holder's video SSRC. The holder's cache has the packet that left under
  it exactly under the condition of `PttNack.VirtualAnswerRightIff`; otherwise another packet can
  be sent in its place, one that never left the room included
  (`PttFailures.AnotherPacketAnswers`). Whoever is asked has it exactly when, besides, nobody else
  announced that SSRC (`PttNack.VirtualReplyRightIff`, `PttFailures.OtherOwnerIsAsked`).
- One cache serves all video tracks of a publisher by number alone, so that a NACK for one track
  can be answered with a packet of another (`PttNack.DirectAnswerRightIff`,
  `PttFailures.OtherTrackAnswers`).
- RTX on the virtual SSRC carries the publisher's own number and timestamp, so a receiver
  restores the packet that left only if the rewriter had changed neither
  (`PttRoom.RestoredIsSentIff`, `PttFailures.RestoredIsAnother`).
- Keyframes: the detector does not look at the partition index (`Vp8.KeyframeRightIff`,
  `Vp8.LaterPartitionTakenForKeyframe`).
- Compounds: a block is filed under its own media SSRC exactly when it has twelve octets
  (`Rtcp.FiledRightIff`), a shorter one under bytes of the packet after it
  (`Rtcp.ShortBlockIsMisfiled`); the NACK parser, unlike the splitter, reads a last packet
  that claims more than is there (`Rtcp.TruncatedNackIsRead`).
- STUN: the offset search also finds an attribute whose value is cut off, which the attribute
  list does not contain (`Stun.LookupsAgree`, `Stun.CutShortIsFound`).

## Model

| member | source | states |
|---|---|---|
| `Twcc.TwccRecorder.Record` | src/transport/udp/twcc.rs:164-181 | the record is appended to the history; base, maximum and time origin move as the wrapping comparison says |
| `Twcc.TwccRecorder.Get` | src/transport/udp/twcc.rs:184-187 | a number is answered exactly when the newest record that went to its slot carries that number, with that record's arrival |
| `Twcc.TwccRecorder.AdvanceBase` | src/transport/udp/twcc.rs:190-192 | only the window's start moves |
| `Twcc.TwccRecorder.PendingCount` | src/transport/udp/twcc.rs:195-200 | zero before the first packet, else the wrapping distance from base to maximum, inclusive |
| `Ring.LookupIsAnswered` | src/transport/udp/twcc.rs:164-187 | over any history of unbounded numbers, however far apart: the ring answers from the newest store in the slot when that looks like the number in 16 bits, and not at all otherwise |
| `Ring.RingIsExactIff` | src/transport/udp/twcc.rs:164-187 | over any history, that is the newest store of the number itself if and only if the newest store in its slot neither is another number with the same low 16 bits nor took the slot from it |
| `Ring.WindowIsExact` | src/transport/udp/twcc.rs:183-187 | whatever came before: once everything stored lies in one window of consecutive numbers no longer than the ring (512 or 8192), each number stored in it is answered from its own newest store, across the 16-bit wrap |
| `Ring.LookupIffHeld` | src/room/participant.rs:183-195 | a lookup succeeds exactly on the newest entry of the slot class, when that entry has the number |
| `Twcc.EncodeChunk` | src/transport/udp/twcc.rs:486-499 | one chunk holds the next seven statuses, padded with not-received at the end |
| `Twcc.EncodeStatusChunks` | src/transport/udp/twcc.rs:481-504 | the loop produces the chunks of the whole status list |
| `Twcc.EncodeRecvDeltas` | src/transport/udp/twcc.rs:511-538 | the loop produces one octet per small and two per large delta, in order, limited as the code limits them |
| `TwccFormat.ChunksRead` | src/transport/udp/twcc.rs:481-504 | a reader of two-bit status vectors (draft section 3.1.4) recovers every status, whatever follows, and padding symbols are ignored |
| `TwccFormat.DeltasRead` | src/transport/udp/twcc.rs:511-538 | a reader of receive deltas (draft section 3.1.5) recovers every sent delta and stops where they end |
| `TwccFormat.FeedbackReads` | src/transport/udp/twcc.rs:385-470 | the draft reader recovers media SSRC, base, count, reference time, feedback count, every symbol and every sent delta; the length field and P bit are consistent and four octets always remain that the announced padding does not cover |
| `Twcc.CollectArrivals` | src/transport/udp/twcc.rs:286-345 | the loop over the window yields the statuses and deltas of what the ring answers, number by number |
| `Twcc.AssembleFeedback` | src/transport/udp/twcc.rs:401-462 | the packet layout, a whole number of 32-bit words long |
| `Twcc.ReportWindow` | src/transport/udp/twcc.rs:282-470 | with a window of at most a ring: nothing heard leaves the state alone; otherwise the reader of the bytes recovers the window's report and base and count advance |
| `Twcc.BuildTwccFeedback` | src/transport/udp/twcc.rs:263-471 | the four ways out and the state after each; a draft reader of the returned bytes finds the old base, the pending count, the media SSRC and the old counter, a non-zero symbol exactly for the numbers the ring has, a small one exactly for deltas in [0, 255], and the deltas and reference time of the arrivals |
| `Twcc.ReportDescribes` | src/transport/udp/twcc.rs:282-470 | the report of a window says, field by field and number by number, what the recorder's fields and ring say |
| `TwccFormat.OneArrivalInOctets` | src/transport/udp/twcc.rs:385-470 | the message for one packet, number 100, octet by octet |
| `Twcc.StatusesCarryDeltas` | src/transport/udp/twcc.rs:291-342 | the deltas a reader gets are the received packets' own, each limited to [-8192, 8191], none moved or lost |
| `Twcc.StatusMeansHeard` | src/transport/udp/twcc.rs:293-340 | symbol i is not-received exactly when the recorder does not have base + i |
| `Twcc.FirstDeltaIsSmall` | src/transport/udp/twcc.rs:311-321 | the first delta of a message is always in [0, 255] |
| `TwccTime.FeedbackTimes` | src/transport/udp/twcc.rs:291-356 | for any loss and reordering, reading reference time and running deltas puts the k-th received packet within k + 1 ticks of its true offset once 24-bit wraps and clamped ticks are added back, and never late when arrivals are in order |
| `TwccTime.LagIsBounded` | src/transport/udp/twcc.rs:301-322 | rounding errors of the deltas add up by less than one tick a packet, in any arrival order |
| `TwccTime.NothingClipped` | src/transport/udp/twcc.rs:324-332 | when every delta fits 14 signed bits nothing has to be added back |
| `TwccTime.DriftIsReal` | src/transport/udp/twcc.rs:306-306 | the bound grows with k in fact: packets 249 microseconds apart are read with the whole elapsed time missing |
| `TwccRuns.MaxTracksIff` | src/transport/udp/twcc.rs:176-179 | the wrapping comparison keeps the low 16 bits of the true maximum if and only if the newcomer is less than 2^15 ahead modulo 2^16 or at most 2^15 behind |
| `TwccRuns.RunTiles` | src/transport/udp/twcc.rs:263-280 | over every admissible run the 16-bit recorder is the unbounded one modulo 2^16, the messages are exactly the told segments, and told and skipped segments tile the number line: nothing twice, nothing passed over but by the guard's jump |
| `TwccRuns.AnswersIff` | src/transport/udp/twcc.rs:164-187 | over every run, however long: the answer for a number is its newest arrival if and only if the newest arrival in its slot neither is another number congruent modulo 2^16 nor has overwritten it |
| `TwccRuns.FalseSymbolIff` | src/transport/udp/twcc.rs:291-342 | over every run: a symbol says received of a number that never arrived exactly when the number is so aliased, and not received of one that did exactly when it was overwritten |
| `TwccRuns.ArrivalFate` | src/transport/udp/twcc.rs:164-471 | over every admissible run: an arrival is reported under its own number by the message that tells the number, and by no other, if and only if it came before that message and nothing else went to its slot in between; never if the guard skipped the number or the number was accounted for before it came |
| `TwccRuns.ReportsInMessage` | src/transport/udp/twcc.rs:291-342 | in the message as read: its base is where the window begins, the symbol of a number told is non-zero exactly when an arrival is reported, and its counter is the number of messages before it modulo 2^8 |
| `TwccRuns.SymbolFromEvents` | src/transport/udp/twcc.rs:291-342 | from the events to the message as read: the symbol of a number told is non-zero if and only if some arrival with the same low 16 bits came before the message and is still in its slot |
| `TwccRuns.AliasedRunReports` | src/transport/udp/twcc.rs:164-345 | a concrete admissible run, two jumps of the guard in it, whose message reports number 65536, which never arrived, as received |
| `TwccRuns.WindowIsAnswers` | src/transport/udp/twcc.rs:291-293 | symbol i of a window is about the unbounded number base + i, across the wrap |
| `TwccRuns.RunFeedbackTimes` | src/transport/udp/twcc.rs:291-356 | the reading error bound holds for the feedback of every run with a forward clock, the first arrival being the time origin |
| `TwccRuns.ClampedRunReads` | src/transport/udp/twcc.rs:511-538 | a concrete run of two packets 3 s apart, the second of which is read as 8191 ticks, 2.05 s, after the first |
| `TwccExtension.ParseTwccSeq` | src/transport/udp/twcc.rs:44-113 | the parser's loop is the walk over the one-byte extension block, with every early exit |
| `TwccExtension.WalkFindsFirst` | src/transport/udp/twcc.rs:80-110 | on any list of well-formed elements and padding the walk finds the number in the first element of that id with two octets |
| `TwccExtension.WalkStops` | src/transport/udp/twcc.rs:80-110 | an element of id 15, or one that claims more than is there, ends the walk with what came before it |
| `TwccExtension.NoBlock` | src/transport/udp/twcc.rs:44-78 | a packet too short, without an extension, or with one of another form carries no number |
| `TwccExtension.PacketNumber` | src/transport/udp/twcc.rs:44-113 | the same on a whole packet with any CSRCs and payload |
| `Rewriter.PttRewriter.constructor` | src/room/ptt_rewriter.rs:72-100 | a new rewriter has no speaker, zero references, its SSRC and guard gap |
| `Rewriter.PttRewriter.SwitchSpeaker` | src/room/ptt_rewriter.rs:108-115 | the speaker changes, the next packet sets the references, video waits for a keyframe |
| `Rewriter.PttRewriter.ClearSpeaker` | src/room/ptt_rewriter.rs:118-123 | no speaker; the last numbers sent are kept |
| `Rewriter.PttRewriter.Rewrite` | src/room/ptt_rewriter.rs:133-212 | verdict, new state and the bytes of the array afterwards, for every packet; a packet not let through and its state are untouched |
| `Rewriter.PttRewriter.Stamp` | src/room/ptt_rewriter.rs:186-209 | in place, number, timestamp and SSRC are overwritten and the marker set on a first packet; no other octet changes |
| `Rewriter.MarkerIs` | src/room/ptt_rewriter.rs:186-209 | the marker is the top bit of the second octet, and the payload type below it stays |
| `Rewriter.PassesIff` | src/room/ptt_rewriter.rs:133-175 | a packet leaves under the room's SSRC if and only if it has an RTP header, comes from the speaker, and is a keyframe where one is awaited; any other packet and the state are left as they were |
| `Rewriter.PttRewriter.Reverse` | src/room/ptt_rewriter.rs:215-219 | the original number for a virtual one under the current references |
| `Rewriter.ReverseInverts` | src/room/ptt_rewriter.rs:177-219 | mapping to virtual numbers and back is the identity in both directions, across the wrap |
| `RewriterRuns.RunIsContinuous` | src/room/ptt_rewriter.rs:108-211 | over every run and any arrival order: inside a burst the stream keeps the originals' distances in number and timestamp; each burst opens one number and one guard gap after the last packet sent, marked, and on a keyframe for video; nothing else in a packet changes |
| `RewriterRuns.BurstKeepsDistances` | src/room/ptt_rewriter.rs:176-180 | any two packets of one burst keep their distances modulo 2^16 and 2^32 |
| `RewriterRuns.RisingIffInOrder` | src/room/ptt_rewriter.rs:166-184 | a receiver's extended numbers rise strictly over the whole run, across speaker changes, if and only if every burst arrived in increasing order; a new burst is always exactly one further |
| `RewriterRuns.NumberReusedIff` | src/room/ptt_rewriter.rs:166-184 | any two packets of a run, in whatever bursts, leave under the same number if and only if their places are congruent modulo 2^16; places are counted from the originals: one past the packet before the burst, and inside it as far from the first as the originals |
| `RewriterRuns.NumberIsPlace` | src/room/ptt_rewriter.rs:166-184 | over every run each packet leaves under the low 16 bits of its place |
| `RewriterRuns.NextBurstReusesIff` | src/room/ptt_rewriter.rs:166-184 | for neighbouring bursts: packet j of the burst after packet k leaves under the number packet i of the burst of k left under exactly when, in the originals, i was ahead of k by one more than j is ahead of the opening packet |
| `RewriterRuns.TidyBurstsShareNothing` | src/room/ptt_rewriter.rs:166-184 | when the last packet of a burst is its furthest and the first of the next its nearest, these two bursts share no number, in whatever order the rest arrived |
| `RewriterRuns.TidyRunReuses` | src/room/ptt_rewriter.rs:166-184 | over a whole run all of whose borders are so tidy, packets of different bursts share a number only 2^16 places or more apart, packets of one burst only when their originals did |
| `RewriterRuns.InOrderNeverReuses` | src/room/ptt_rewriter.rs:166-184 | while every burst arrives in order a number comes round again only after 2^16 numbers |
| `RewriterRuns.ReverseRightIff` | src/room/ptt_rewriter.rs:215-219 | whatever was sent since, a virtual number is mapped back to the number it came from exactly when its packet and the last one sent are as far apart as their originals |
| `RewriterRuns.LateTailIsReused` | src/room/ptt_rewriter.rs:183-184 | a concrete run (10, 12, 11, then a new speaker) whose second burst opens on a number already sent |
| `RewriterRuns.LaterPacketIsReused` | src/room/ptt_rewriter.rs:183-184 | a concrete run (10, 13, 11, then 500, 501) whose second burst opens on a fresh number and reuses one with its second packet |
| `RewriterRuns.ThirdBurstReuses` | src/room/ptt_rewriter.rs:183-184 | a concrete run (10, 13, 11, then 500, then 900) whose third burst reuses a number of the first over a tidy border, while neighbouring bursts share none |
| `Vp8.IsVp8Keyframe` | src/room/ptt_rewriter.rs:235-286 | the offsets walked by the loop-free scan are those of the descriptor reader |
| `Vp8.KeyframeIs` | src/room/ptt_rewriter.rs:235-286 | for every packet with any CSRCs, header extension and descriptor: the start of a partition whose first octet has a clear low bit |
| `Vp8.KeyframeRightIff` | src/room/ptt_rewriter.rs:256-285 | against RFC 7741 section 4.3 the answer is right unless a partition other than the first starts with an even octet |
| `Vp8.LaterPartitionTakenForKeyframe` | src/room/ptt_rewriter.rs:256-285 | a concrete packet of partition 1 with an even first octet that the detector takes for a keyframe |
| `Floor.FloorController.Request` | src/room/floor.rs:96-125 | grant on an idle floor, idempotent for the holder, denied otherwise |
| `Floor.FloorController.Release` | src/room/floor.rs:128-150 | only the holder's release frees the floor |
| `Floor.FloorController.Ping` | src/room/floor.rs:153-162 | only the holder's ping is taken |
| `Floor.FloorController.CheckTimers` | src/room/floor.rs:167-197 | revocation on a burst over 30 s, then on silence over 5 s |
| `Floor.FloorController.OnParticipantLeave` | src/room/floor.rs:200-212 | a leaving holder releases |
| `Floor.SinceLastCheck` | src/room/floor.rs:167-197 | over every run with a forward clock, at the last check the burst and the silence were within their limits |
| `Floor.BurstIsBounded` | src/lib.rs:320-346 | with checks at most P ms apart no burst outlives 30000 + P ms and no holder survives 5000 + P ms without a ping |
| `Ptt.FloorIsOneRun` | src/lib.rs:320-356 | the floor of a room is, over any run of room events, the floor of one floor run, releases and leaves placed at the last reading of the clock |
| `Ptt.RoomBurstIsBounded` | src/lib.rs:320-356 | so the bounds hold in the room, whatever else happens there: at most P ms after a timer tick no burst is older than 30000 + P ms and no holder 5000 + P ms without a ping, a holder the reaper took included |
| `Ptt.RoomEndFrees` | src/signaling/handler.rs:559-760 | a holder's release or leaving leaves the room's floor idle and both rewriters without a speaker |
| `Floor.BurstBeganWithGrant` | src/room/floor.rs:99-115 | the burst is measured from the holder's own request on an idle floor; later requests of anybody never move it |
| `Floor.LastPingWas` | src/room/floor.rs:153-162 | the silence is measured from an event that was the holder's own answered ping or its grant of an idle floor, and no ping was answered after it; nobody else's ping counts |
| `Floor.TurnEnds` | src/room/floor.rs:128-212 | a turn ends only by the holder's release or leaving or by the timer |
| `Floor.GrantsAreExclusive` | src/room/floor.rs:96-125 | between grants to two different users the first one's turn has ended |
| `Floor.RevokedIff` | src/room/floor.rs:167-197 | a check revokes exactly when the holder's grant of an idle floor lies more than 30 s back or its last answered ping or grant more than 5 s |
| `Floor.KeepsFloor` | src/room/floor.rs:153-197 | nobody loses the floor early: over every clocked run a holder that neither releases nor leaves keeps it, in the same burst, while the burst is at most 30 s old and its last ping or grant at most 5 s |
| `Ptt.RoomKeepsFloor` | src/room/floor.rs:153-197 | the same in the room, whatever packets, joins and requests come |
| `Floor.AnswersMean` | src/room/floor.rs:96-212 | over every run each answer is given exactly when it should: who is granted, whom a denial names, who is released, whose ping counts, and which limit a revocation was for |
| `Floor.EndFrees` | src/room/floor.rs:128-212 | a holder's release or leaving and a revocation leave the floor idle |
| `RtpCache.RtpCache.Store` | src/room/participant.rs:165-168 | the packet is appended to the history, its slot overwritten |
| `RtpCache.RtpCache.Get` | src/room/participant.rs:183-195 | the newest packet of the slot, exactly when it carries the number |
| `RtpCache.GetIsLookup` | src/room/participant.rs:183-195 | checking the packet's own number is checking the number it was stored under |
| `Ptt.AlwaysAgree` | src/signaling/handler.rs:675-684 | in every state reachable by handlers, timer, reaper and packets taken as steps, floor holder, audio speaker and video speaker are the same |
| `Ptt.ForwardedFromHolder` | src/transport/udp/ingress.rs:152-212 | in every reachable push-to-talk state only the holder's packets are forwarded; its audio and video are never skipped by the rewriter and leave under the room's SSRC; other payload types leave unchanged |
| `Ptt.ForwardedIff` | src/transport/udp/ingress.rs:152-212 | in every reachable push-to-talk state a member's packet is forwarded if and only if the member has the floor and, for a video packet, it is a keyframe or a video packet has been forwarded since the last grant, a repeated one included |
| `Ptt.ConferenceForwards` | src/transport/udp/ingress.rs:152-165 | outside push-to-talk every member's packet is forwarded as it came, and nobody else's |
| `Ptt.KindsAre` | src/transport/udp/ingress.rs:165-205 | audio is payload type 111 and video 96, with the marker or without |
| `Ptt.StreamIsOneRun` | src/transport/udp/ingress.rs:165-205 | what a push-to-talk room sends as audio, and what it sends as video, over any run of room events is exactly what one run of that rewriter emits, so both streams are continuous |
| `Ptt.RepeatedRequestRestarts` | src/signaling/handler.rs:675-684 | in every reachable state a holder's repeated request leaves the floor alone and restarts both rewriters; the room is unchanged if and only if both still awaited the turn's first packet with the keyframe wait of a fresh turn |
| `Ptt.RepeatedRequestStopsVideo` | src/signaling/handler.rs:675-684 | after it no inter frame of anybody is forwarded until a keyframe comes, whatever else happens in the room |
| `PttNack.NackFindsOriginal` | src/transport/udp/ingress.rs:435-490 | after a video packet left as virtual number v, while its sender keeps floor, membership and base: a NACK for v is looked up at the sender's track and nowhere else, and answered with the original's bytes or with what the sender last stored in that slot |
| `PttNack.UndisturbedIsOriginal` | src/room/participant.rs:165-195 | with no colliding packet stored since, that answer is the original packet |
| `PttNack.KeptFor511` | src/room/participant.rs:165-195 | while the sender's packets since are fewer than 512 numbers ahead, none with the same number, the answer is the original |
| `PttNack.GoneAfter512` | src/room/participant.rs:165-195 | the packet 512 numbers further takes its place |
| `PttNack.ConferenceNackFindsOriginal` | src/transport/udp/ingress.rs:453-490 | outside push-to-talk the number is the publisher's own and the answer is as above |
| `PttNack.OnlyHolderAsked` | src/transport/udp/ingress.rs:441-475 | in every reachable state a NACK on the virtual SSRC is looked up at the holder's video track, and at no other member, when nobody else announced that SSRC |
| `PttNack.VirtualAnswerRightIff` | src/transport/udp/ingress.rs:435-490 | over every run: for the number the i-th video packet left under, the holder's cache has the very event that brought it if and only if its sender is the holder, the rewriter's offset is the same (inside the last burst it is), and the sender has stayed and stored nothing else in the slot; any answer of the holder is the packet last stored in the slot looked up |
| `PttNack.VirtualReplyRightIff` | src/transport/udp/ingress.rs:435-490 | over every run: every member the scan can come to has that event if and only if these conditions hold and nobody but the holder announced the SSRC looked up |
| `PttNack.DirectAnswerRightIff` | src/room/participant.rs:165-195 | over every run: a NACK that is not remapped is answered with a packet of the SSRC and number asked for if and only if the last video packet of any track to go to the slot was that one |
| `PttFailures.AnotherPacketAnswers` | src/transport/udp/ingress.rs:435-490 | a concrete run in which a NACK for the first speaker's keyframe is answered with a packet of the second speaker that never left the room |
| `PttFailures.OtherOwnerIsAsked` | src/transport/udp/ingress.rs:441-475 | a concrete run in which a listener has announced the holder's SSRC: the holder has the packet, and a reply the scan allows carries nothing |
| `PttFailures.OtherTrackAnswers` | src/room/participant.rs:165-195 | a concrete run in which a NACK for one video track is answered with the other track's packet of the same number |
| `PttFailures.AskingAgainStopsVideo` | src/signaling/handler.rs:675-684 | a concrete run: an inter frame of the holder is forwarded, and after a repeated request it is not |
| `PttFailures.RestoredIsAnother` | src/transport/udp/ingress.rs:482-490 | a concrete run: the keyframe that left as number 1 is restored from its RTX form as number 10 |
| `PttNack.VirtualAnswersAreHolders` | src/transport/udp/ingress.rs:435-475 | in any state where nobody announced the virtual SSRC, an answer on it exists only while a member holds the floor, comes from the holder when its video SSRC is its own, and is a packet that maps to the number asked for under the current base |
| `PttNack.TracksStayInOrder` | src/room/participant.rs:293-310 | in every reachable state a member's tracks have distinct SSRCs, and exactly the video tracks have an RTX SSRC |
| `PttNack.PublishAdds` | src/room/participant.rs:293-310 | in every reachable state announcing a new SSRC adds one track of its kind, a video track with the RTX SSRC that lies 1000 and the number of earlier video tracks further, wrapping |
| `PttNack.RtxNumbersRunOn` | src/transport/udp/ingress.rs:482-490 | in every reachable state a member's next RTX number is the number of RTX packets it has sent since it joined, modulo 2^16 |
| `PttNack.FirstVideoIsFound` | src/transport/udp/ingress.rs:443-475 | the SSRC of a member's first video track finds that track, with its RTX SSRC |
| `PttNack.FirstVideoIs` | src/transport/udp/ingress.rs:443-450 | it is the first video track whose SSRC is looked up |
| `PttNack.CacheGrows` | src/transport/udp/ingress.rs:119-131 | while a member stays, its cache history grows by exactly the video packets it sends, gated or not |
| `PttRoom.Publisher.AddTrack` | src/room/participant.rs:293-310 | no second track with an SSRC; a video track gets SSRC + 1000 + counter, wrapping |
| `PttRoom.Publisher.Resend` | src/transport/udp/ingress.rs:482-490 | in order, each number still cached becomes one RTX packet under the next RTX number; the counter wraps |
| `PttRoom.CachedIsResent` | src/transport/udp/ingress.rs:482-490 | every number still cached is resent, under its own RTX number |
| `PttRoom.ResentIsCached` | src/transport/udp/ingress.rs:482-490 | every packet resent is the RTX form of what the cache has for one of the numbers |
| `PttRoom.AnswerIsResent` | src/transport/udp/ingress.rs:453-490 | what a publisher has for a number asked for is among the packets sent, as RTX under one of its next numbers |
| `PttRoom.ReplyCarriesOriginal` | src/transport/udp/ingress.rs:428-490 | end to end: a video packet left; while its sender keeps floor, membership and base and no later packet took its slot, any reply of HandleNackItem to an item that lists the number it left under carries the original, as RTX of the sender's video track |
| `PttRoom.RestoredIsSentIff` | src/transport/udp/ingress.rs:482-490 | restored under the SSRC and second octet that were sent, the packet that left is recovered exactly when the rewriter had changed neither number nor timestamp: RTX carries the publisher's own |
| `PttRoom.PttRoom.constructor` | src/room/room.rs:63-78 | a new room is the machine's initial state, its capacity limited: audio without, video with keyframe wait |
| `PttRoom.PttRoom.HandleFloorRequest` | src/signaling/handler.rs:659-732 | on shared objects, floor and both rewriters move as one step of the machine |
| `PttRoom.PttRoom.HandleFloorRelease` | src/signaling/handler.rs:734-760 | as one step, a release on an idle floor included |
| `PttRoom.PttRoom.HandleFloorPing` | src/signaling/handler.rs:762-780 | as one step, in any room mode |
| `PttRoom.PttRoom.TimerTick` | src/lib.rs:339-356 | as one step: a revocation clears both rewriters |
| `PttRoom.PttRoom.HandleLeave` | src/signaling/handler.rs:559-570 | as one step: the floor and the rewriters first, then the member, also on clean-up |
| `PttRoom.PttRoom.HandleReap` | src/room/room.rs:351-356 | as one step: the member goes, the floor stays |
| `PttRoom.PttRoom.HandleJoin` | src/room/room.rs:81-101 | as one step, with the refusals: a full room first, then a name already there; otherwise a new member |
| `PttRoom.PttRoom.HandlePublish` | src/signaling/handler.rs:420-431 | as one step |
| `PttRoom.PttRoom.HandleRtp` | src/transport/udp/ingress.rs:119-212 | as one step, and the fan-out is what the machine forwards: cached before the gate, gated, rewritten on a copy |
| `PttRoom.PttRoom.RemapNack` | src/transport/udp/ingress.rs:435-455 | lookup SSRC and numbers for a NACK, remapped only for the virtual video SSRC |
| `PttRoom.PttRoom.FindByTrackSsrc` | src/room/room.rs:188-198 | a publisher found announced the SSRC; none is found only when nobody did, whatever the order of the scan |
| `PttRoom.PttRoom.HandleNackItem` | src/transport/udp/ingress.rs:428-490 | the expanded numbers, the publisher asked, the RTX packets sent, and the state after, whichever publisher the scan meets first |
| `PttRoom.PttRoom.HandleNackBlock` | src/transport/udp/ingress.rs:409-490 | from the received bytes: one reply per item the parser reads, in order, each correct on the state the replies before it left |
| `Rooms.Participant.LatchAddress` | src/room/participant.rs:120-126 | only the session's own address changes |
| `Rooms.Participant.Touch` | src/room/participant.rs:280-282 | only the time last heard of changes |
| `HubModel.AlwaysSound` | src/room/room.rs:81-147 | in every reachable state, whatever ufrags or addresses collide, every entry of a room's two indices names a member whose session really has that ufrag or address |
| `HubModel.FoundIsLive` | src/room/room.rs:310-323 | whatever a hub lookup finds is live and has what was asked for |
| `HubModel.LeftIsGone` | src/room/room.rs:104-123 | after someone left a room no index of that room names them |
| `HubModel.GoneFromHub` | src/room/room.rs:237-293 | leaving and closing also clear the hub's own indices of the ufrags and addresses of those who went |
| `HubModel.AlwaysWithinCapacity` | src/room/room.rs:63-101 | in every reachable state no room holds more people than its capacity, and none is for more than 1000 |
| `HubModel.CapacityAsked` | src/room/room.rs:63-71 | a room's capacity is what its creation asked for, limited to 1000, and 1000 without |
| `HubModel.JoinFinds` | src/room/room.rs:267-275 | somebody accepted is found by either ufrag, each leading to its own session, which has no address yet |
| `HubModel.JoinRefused` | src/room/room.rs:81-88 | a full room is refused first, then a name already there, and nothing changes |
| `HubModel.LastHeard` | src/room/participant.rs:280-282 | in every reachable state a person was last heard of at its last sign of life, or at its join |
| `HubExact.LookupsAreScans` | src/room/room.rs:310-323 | in every state reached with fresh ufrags and free addresses, lookups by address and by ufrag find a session exactly when a scan over all rooms does |
| `HubExact.LatchIsExactIff` | src/room/room.rs:296-306 | a latch keeps the address lookups exact if and only if no other live session has the address |
| `HubExact.JoinIsExactIff` | src/room/room.rs:267-275 | an accepted participant keeps the ufrag lookups exact if and only if both ufrags are new |
| `HubExact.StaleEntryIsHarmless` | src/room/room.rs:133-147 | rebinding leaves the old address in the hub's reverse index; it then finds nobody, and the new address finds the session |
| `HubExact.LeaveKeepsExact` | src/room/room.rs:278-292 | leaving removes no entry that leads to someone else |
| `HubExact.CloseKeepsExact` | src/room/room.rs:237-258 | closing a room removes no entry that leads into another room |
| `HubReap.ReapConserves` | src/room/room.rs:327-362 | everyone there before is kept unchanged or reaped, never both; reaped exactly when the time last heard of is not zero and more than the timeout before now; the invariants survive and no reaped name is left in either index of its room |
| `Rooms.Room.AddParticipant` | src/room/room.rs:81-101 | full, then already there, then added to the three indices |
| `Rooms.Room.RemoveParticipant` | src/room/room.rs:104-123 | on shared participant objects, person, ufrags and addresses leave the indices; the rest stays, and entries stay alive and truthful |
| `Rooms.Room.Latch` | src/room/room.rs:127-147 | the session's object and the address index move together |
| `RoomHub.RoomHub.AddParticipant` | src/room/room.rs:267-275 | room and reverse index move as one step, with the errors |
| `RoomHub.RoomHub.RemoveParticipant` | src/room/room.rs:278-293 | as one step, with the errors |
| `RoomHub.RoomHub.RemoveRoom` | src/room/room.rs:237-258 | the loop clears exactly the ufrags and addresses of the room's participants |
| `RoomHub.RoomHub.LatchByUfrag` | src/room/room.rs:296-306 | as one step |
| `RoomHub.RoomHub.FindByAddr` | src/room/room.rs:310-315 | what it finds is live; with exact indices it is what a scan finds, in both directions |
| `RoomHub.RoomHub.FindByUfrag` | src/room/room.rs:318-323 | what it finds is live; with exact indices it is what a scan finds, in both directions |
| `RoomHub.RoomHub.ReapZombies` | src/room/room.rs:327-362 | the nested loops remove every zombie of every room once and nobody else, in whatever order, and the hub is the old one with exactly those departures |
| `Stun.Parse` | src/transport/stun.rs:69-128 | the accepted messages, their fields and attributes, and every rejection |
| `Stun.ParsedIff` | src/transport/stun.rs:69-97 | a datagram is a message if and only if its top bits are zero, the magic cookie is there, and its length is a multiple of four and there |
| `Stun.WriteAttr` | src/transport/stun.rs:248-255 | type, length, value and zero padding to whole words |
| `Stun.EncodedRead` | src/transport/stun.rs:100-121 | reading what was written gives any attribute list back |
| `Stun.MessageRead` | src/transport/stun.rs:69-128 | a header and any attributes that fit are parsed back as they were |
| `Stun.FindAttrOffset` | src/transport/stun.rs:302-314 | the loop is the search by type alone |
| `Stun.LookupsAgree` | src/transport/stun.rs:132-134 | on every accepted message an attribute the list lookup finds is found by the offset search at that same first occurrence; the offset search finds one more case only, an attribute cut short by the end |
| `Stun.CutShortIsFound` | src/transport/stun.rs:302-314 | a concrete accepted message without attributes in which the offset search finds one, its value missing |
| `StunResponse.EncodeXorMappedAddress` | src/transport/stun.rs:257-286 | the loops produce the masked address |
| `StunResponse.XorBits` | src/transport/stun.rs:257-286 | a bit of the masked word is set exactly when the two bits differ |
| `StunResponse.MappedInOctets` | src/transport/stun.rs:257-286 | the attribute of 192.0.2.1:32853, octet by octet |
| `StunResponse.MaskInOctets` | src/transport/stun.rs:257-286 | the unspecified IPv6 address shows the mask: the magic cookie, then the transaction id |
| `StunResponse.MappedReads` | src/transport/stun.rs:257-286 | every IPv4 and IPv6 address and port decodes back under section 14.2 of RFC 8489 |
| `StunResponse.VerifyMessageIntegrity` | src/transport/stun.rs:212-238 | accepts exactly when the first MESSAGE-INTEGRITY attribute carries the HMAC section 14.5 of RFC 8489 asks for |
| `StunResponse.BuildBindingResponse` | src/transport/stun.rs:167-209 | the patched buffer is header and four attributes, each computed over those before it |
| `StunResponse.ResponseInOctets` | src/transport/stun.rs:167-209 | the whole response for 192.0.2.1:32853 octet by octet: what is signed, what is summed, what is sent |
| `StunResponse.ResponseAccepted` | src/transport/stun.rs:167-238 | for every HMAC and CRC function, transaction id, address and key: the response is parsed back with its attributes in order, the address decodes, integrity is accepted and the fingerprint of section 14.7 matches |
| `StunResponse.IntegrityAcceptedIff` | src/transport/stun.rs:190-238 | integrity is accepted if and only if the first such attribute is the one computed over the attributes before it, whatever follows; any other value is refused, and so is its absence |
| `StunResponse.FingerprintAccepted` | src/transport/stun.rs:198-206 | a last fingerprint attribute over whatever precedes it matches |
| `Rtcp.SplitCompoundRtcp` | src/transport/udp/rtcp.rs:137-182 | the Generic NACKs copied and the RR, PLI and REMB blocks referenced, both in order, the references disjoint and in bounds |
| `Rtcp.FiledByKind` | src/transport/udp/rtcp.rs:137-182 | of all packets, receiver reports (201), PLI (206, format 1) and REMB (206, format 15) are relayed, Generic NACKs (205, format 1) answered, and no others either |
| `Rtcp.PacketsOfConcat` | src/transport/udp/rtcp.rs:143-179 | cutting a concatenation of RTCP packets gives the packets back, whatever incomplete rest follows |
| `Rtcp.AssembleCompound` | src/transport/udp/rtcp.rs:185-192 | the blocks one after another |
| `Rtcp.ReassembledSplits` | src/transport/udp/rtcp.rs:137-192 | splitting the reassembled relay blocks of any compound gives the same blocks back, no NACKs, and the same media SSRC for every block of at least twelve octets |
| `Rtcp.FiledRightIff` | src/transport/udp/rtcp.rs:152-160 | wherever a block stands it is filed under the SSRC it has of itself if and only if it has at least twelve octets |
| `Rtcp.FiledByOwnSsrc` | src/transport/udp/rtcp.rs:152-160 | a block of at least twelve octets is filed under its own second SSRC wherever it stands |
| `Rtcp.ShortBlockIsMisfiled` | src/transport/udp/rtcp.rs:152-160 | an eight-octet receiver report is filed under the header of the packet that follows |
| `Rtcp.ParseRtcpNack` | src/transport/udp/rtcp.rs:72-110 | the nested loops read the items of every Generic NACK, a truncated last one included |
| `Rtcp.TruncatedNackIsRead` | src/transport/udp/rtcp.rs:72-110 | a NACK cut short behind its fixed part is no packet for the splitter, and the parser reads exactly the items that are there |
| `Rtcp.NacksRead` | src/transport/udp/rtcp.rs:72-110 | from any concatenation of RTCP packets exactly the items of its NACKs, in order; a NACK too short for its fixed part has none |
| `Rtcp.EncodedNackReads` | src/transport/udp/rtcp.rs:72-110 | the items of an encoded Generic NACK (RFC 4585 section 6.2.1) come back |
| `Rtcp.ExpandNack` | src/transport/udp/rtcp.rs:198-206 | without repeats, exactly the numbers the item says are lost, across the wrap |
| `Rtcp.MaskReads` | src/transport/udp/rtcp.rs:198-206 | against a sender's mask, the first step weighing one and each next one twice as much: the numbers lost are the number itself and exactly those steps after it |
| `Rtcp.BuildRtxPacket` | src/transport/udp/rtcp.rs:217-251 | the RTX bytes, empty for packets too short for their header |
| `Rtcp.RtxOfPacket` | src/transport/udp/rtcp.rs:217-251 | the RTX form of a packet with any CSRCs: header and CSRCs under type 97, number and SSRC, then the original number, then the rest |
| `Rtcp.RtxRestores` | src/transport/udp/rtcp.rs:217-251 | a receiver that knows the media SSRC and the second octet rebuilds the original packet from its RTX form |
| `Rtcp.EncodeRembBitrate` | src/transport/udp/rtcp.rs:348-356 | mantissa and exponent bracket the bit rate within one mantissa step, the mantissa fits 18 bits and uses the top one unless the exponent is zero |
| `Rtcp.BuildRemb` | src/transport/udp/rtcp.rs:308-344 | a REMB reader gets the feedback SSRC and a rate at most one mantissa step below the asked one |

## Left out

- Sockets, tasks, channels, WebSocket and JSON handling, broadcasts, metrics and logging: input, output and plumbing.
- DTLS, SRTP, HMAC-SHA1, CRC-32 and random numbers: foreign code; the model takes them as functions or parameters.
- Interleavings inside a handler: floor, rewriters and maps have locks of their own, and agreement between them is not kept half-way through a handler.
- Twcc.BuildTwccFeedback: instants are unbounded nanoseconds; the code's conversions to i64 microseconds and i32 ticks of 64 ms, which lose value only after thousands of years, are not modelled.
- Twcc.TwccRecorder.Record: the u64 packet counter is unbounded here.
- RoomHub.RoomHub.ReapZombies: the hub holds its rooms as values and names participants by room and user; that rooms and participants are shared objects is modelled inside one room only (`Rooms.Room`).
- Rooms.Participant: the two media sessions of a participant are its own ufrag and address fields; SRTP contexts and passwords are left out.
- PttRoom.PttRoom.HandleRtp: the sender is a member, as the address lookup before it guarantees; the list of receivers and the egress queues are left out, so is the congestion-control recorder, which does not depend on the floor.
- PttRoom.PttRoom.HandleJoin: the ufrags and indices of a join are in the hub's model, not in the push-to-talk room's.
- Rtcp.RtxRestores: the original number stands before a header extension in the code, not at the start of the payload as RFC 4588 section 4 has it; the lemma claims recovery for a receiver that reads it there. Payload type octet and SSRC are given to the receiver.
- Uniqueness of RTX SSRCs: SSRC + 1000 + counter can equal another track's SSRC; nothing is claimed.
- Muting of tracks, keyframe requests and their retries, egress loops, subscriber RTCP relay addressing: network effects.
- STUN accessors (user name, priority, use-candidate) and the RTP header parser's remaining fields: single reads that would only add easy members.
- `src/metrics`, `src/media`, error codes, opcodes, demultiplexing and ICE credentials: constants, counters and thin wrappers.
