/** Arrival recorder and feedback builder of transport-wide congestion control. */
module Twcc {
  import opened Words
  import opened Ring
  import opened TwccFormat

  const CAPACITY := 8192

  /** A monotonic instant, in nanoseconds from an arbitrary origin. */
  type Instant = nat

  // --- specification state ---

  /** What the recorder knows: every record ever made, and the window still to be reported. */
  datatype Recorder = Recorder(
    log: seq<Stored<Instant>>, base: u16, max: u16, baseTime: Option<Instant>, fbCount: u8)

  const FRESH := Recorder([], 0, 0, None, 0)

  function Recorded(s: Recorder, n: u16, t: Instant): Recorder
  {
    var log := s.log + [Stored(n, t)];
    if s.log == [] then
      Recorder(log, n, n, Some(t), s.fbCount)
    else
      s.(log := log, max := if 0 < Wrap16(n - s.max) < 0x8000 then n else s.max)
  }

  function Pending(s: Recorder): u16
  {
    if s.log == [] then 0 else Wrap16(s.max - s.base + 1)
  }

  /** Arrivals of `count` consecutive numbers from `base`, as the ring answers for each. */
  function Window(log: seq<Stored<Instant>>, base: u16, count: nat): (w: seq<Option<Instant>>)
    ensures |w| == count
  {
    seq(count, i requires 0 <= i < count => Lookup(log, CAPACITY, Wrap16(base + i)))
  }

  datatype Outcome = Nothing | Jump | Unheard | Sent(base: u16, count: u16)

  /** The builder's four ways out: nothing pending, too much pending, nobody heard, a message. */
  function FeedbackOutcome(s: Recorder): Outcome
  {
    if Pending(s) == 0 then Nothing
    else if Pending(s) > CAPACITY then Jump
    else if Received(Window(s.log, s.base, Pending(s))) == [] then Unheard
    else Sent(s.base, Pending(s))
  }

  function AfterFeedback(s: Recorder): Recorder
  {
    match FeedbackOutcome(s)
    case Jump => s.(base := Wrap16(s.max - 100))
    case Sent(base, count) => s.(base := Wrap16(base + count), fbCount := (s.fbCount + 1) % 0x100)
    case _ => s
  }

  lemma AfterSent(s: Recorder)
    requires FeedbackOutcome(s).Sent?
    ensures AfterFeedback(s) == s.(base := Wrap16(s.base + Pending(s)), fbCount := (s.fbCount + 1) % 0x100)
  {
  }

  // --- ticks of 250 microseconds ---

  function Since(later: Instant, earlier: Instant): nat
  {
    if later >= earlier then later - earlier else 0
  }

  function Ticks(ns: nat): nat { ns / 1000 / 250 }

  /** Arrivals that happened, in sequence-number order. */
  function Received(w: seq<Option<Instant>>): (r: seq<Instant>)
    ensures |r| <= |w|
  {
    if w == [] then []
    else
      match w[|w| - 1]
      case Some(t) => Received(w[..|w| - 1]) + [t]
      case None => Received(w[..|w| - 1])
  }

  /** Ticks since the previous received packet, or since the reference time for the first one. */
  function NextDelta(prev: Option<Instant>, arrival: Instant, baseTime: Instant): int
  {
    match prev
    case Some(p) => if arrival >= p then Ticks(Since(arrival, p)) else -(Ticks(Since(p, arrival)) as int)
    case None => Ticks(Since(arrival, baseTime)) - Ticks(Since(arrival, baseTime)) / 256 * 256
  }

  function LastOf(r: seq<Instant>): Option<Instant>
  {
    if r == [] then None else Some(r[|r| - 1])
  }

  /** Delta of the `k`-th received packet. */
  function Delta(r: seq<Instant>, baseTime: Instant, k: nat): int
    requires k < |r|
  {
    NextDelta(LastOf(r[..k]), r[k], baseTime)
  }

  function Deltas(r: seq<Instant>, baseTime: Instant): (d: seq<int>)
    ensures |d| == |r|
  {
    seq(|r|, k requires 0 <= k < |r| => Delta(r, baseTime, k))
  }

  /** The deltas as they go on the wire. */
  function SentTicks(r: seq<Instant>, baseTime: Instant): (d: seq<int>)
    ensures |d| == |r|
  {
    seq(|r|, k requires 0 <= k < |r| => Clamp(Delta(r, baseTime, k), -8192, 8191))
  }

  function StatusOf(d: int): Status
  {
    if 0 <= d <= 255 then SmallDelta else LargeDelta
  }

  function Statuses(w: seq<Option<Instant>>, baseTime: Instant): (st: seq<Status>)
    ensures |st| == |w|
  {
    if w == [] then []
    else
      var before := Statuses(w[..|w| - 1], baseTime);
      if w[|w| - 1].None? then before + [NotReceived]
      else
        var r := Received(w);
        before + [StatusOf(Delta(r, baseTime, |r| - 1))]
  }

  function RefTime(r: seq<Instant>, baseTime: Instant): nat
    requires r != []
  {
    Ticks(Since(r[0], baseTime)) / 256
  }

  /** What a feedback message must tell its reader about the pending window. */
  function FeedbackReport(s: Recorder, media: u32): Report
    requires FeedbackOutcome(s).Sent? && s.baseTime.Some?
  {
    var w := Window(s.log, s.base, Pending(s));
    var r := Received(w);
    Report(1, media, s.base, Pending(s), RefTime(r, s.baseTime.value) % 0x100_0000, s.fbCount,
           Codes(Statuses(w, s.baseTime.value)),
           SentTicks(r, s.baseTime.value),
           4)
  }

  // --- statuses and deltas agree ---

  lemma {:induction false} ReceivedCountAppend(st: seq<Status>, s: Status)
    ensures ReceivedCount(st + [s]) == ReceivedCount(st) + if s == NotReceived then 0 else 1
  {
    if st == [] {
      assert st + [s] == [s];
    } else {
      assert (st + [s])[1..] == st[1..] + [s];
      ReceivedCountAppend(st[1..], s);
    }
  }

  lemma {:induction false} SentDeltasAppend(st: seq<Status>, deltas: seq<int>, s: Status, d: int)
    requires ReceivedCount(st) == |deltas|
    requires ReceivedCount(st + [s]) == |if s == NotReceived then deltas else deltas + [d]|
    ensures SentDeltas(st + [s], if s == NotReceived then deltas else deltas + [d]) ==
            SentDeltas(st, deltas) + if s == NotReceived then [] else [SentDelta(s, d)]
  {
    if st == [] {
      assert st + [s] == [s];
    } else {
      ReceivedCountAppend(st, s);
      ReceivedCountAppend(st[1..], s);
      assert (st + [s])[1..] == st[1..] + [s];
      if st[0] == NotReceived {
        SentDeltasAppend(st[1..], deltas, s, d);
      } else {
        assert (deltas + [d])[1..] == deltas[1..] + [d];
        SentDeltasAppend(st[1..], deltas[1..], s, d);
      }
    }
  }

  lemma DeltasAppend(r: seq<Instant>, t: Instant, baseTime: Instant)
    ensures Delta(r + [t], baseTime, |r|) == NextDelta(LastOf(r), t, baseTime)
    ensures Deltas(r + [t], baseTime) == Deltas(r, baseTime) + [NextDelta(LastOf(r), t, baseTime)]
    ensures SentTicks(r + [t], baseTime) ==
            SentTicks(r, baseTime) + [Clamp(NextDelta(LastOf(r), t, baseTime), -8192, 8191)]
  {
    assert (r + [t])[..|r|] == r;
    assert forall k :: 0 <= k < |r| ==> (r + [t])[..k] == r[..k];
  }

  /** The delta list the reader gets is the received packets' own, limited to 14 bits signed. */
  lemma {:induction false} StatusesCarryDeltas(w: seq<Option<Instant>>, baseTime: Instant)
    ensures ReceivedCount(Statuses(w, baseTime)) == |Received(w)|
    ensures SentDeltas(Statuses(w, baseTime), Deltas(Received(w), baseTime)) ==
            SentTicks(Received(w), baseTime)
  {
    if w != [] {
      var n := |w| - 1;
      var st, r := Statuses(w[..n], baseTime), Received(w[..n]);
      StatusesCarryDeltas(w[..n], baseTime);
      if w[n].None? {
        ReceivedCountAppend(st, NotReceived);
        SentDeltasAppend(st, Deltas(r, baseTime), NotReceived, 0);
      } else {
        var d := Delta(r + [w[n].value], baseTime, |r|);
        ReceivedCountAppend(st, StatusOf(d));
        SentDeltasAppend(st, Deltas(r, baseTime), StatusOf(d), d);
        DeltasAppend(r, w[n].value, baseTime);
      }
    }
  }

  /** Symbol `i` says "received" exactly when the ring holds number base + i. */
  lemma {:induction false} StatusMeansHeard(w: seq<Option<Instant>>, baseTime: Instant, i: nat)
    requires i < |w|
    ensures (Statuses(w, baseTime)[i] == NotReceived) == w[i].None?
    decreases |w|
  {
    if i < |w| - 1 {
      StatusMeansHeard(w[..|w| - 1], baseTime, i);
      assert Statuses(w, baseTime)[i] == Statuses(w[..|w| - 1], baseTime)[i];
    }
  }

  /** The first delta is always a small one. */
  lemma FirstDeltaIsSmall(r: seq<Instant>, baseTime: Instant)
    requires r != []
    ensures 0 <= Delta(r, baseTime, 0) <= 255
  {
  }

  // --- what a message says ---

  lemma {:induction false} ReceivedPrefix(w: seq<Option<Instant>>, i: nat)
    requires i <= |w|
    ensures Received(w[..i]) <= Received(w)
    ensures i < |w| && w[i].Some? ==>
            |Received(w[..i])| < |Received(w)| && Received(w)[|Received(w[..i])|] == w[i].value
    decreases |w|
  {
    if i < |w| {
      var less := w[..|w| - 1];
      ReceivedPrefix(less, if i < |less| then i else |less|);
      assert i < |less| ==> less[..i] == w[..i] && less[i] == w[i];
      assert less[..|less|] == less;
    } else {
      assert w[..i] == w;
    }
  }

  /** The symbol of a packet that came says whether its delta fits one octet. */
  lemma {:induction false} StatusMeansSize(w: seq<Option<Instant>>, baseTime: Instant, i: nat)
    requires i < |w| && w[i].Some?
    ensures |Received(w[..i])| < |Received(w)|
    ensures Statuses(w, baseTime)[i] == SmallDelta <==> 0 <= Delta(Received(w), baseTime, |Received(w[..i])|) <= 255
    decreases |w|
  {
    ReceivedPrefix(w, i);
    var less := w[..|w| - 1];
    var k := |Received(w[..i])|;
    if i < |less| {
      StatusMeansSize(less, baseTime, i);
      assert less[..i] == w[..i];
      ReceivedPrefix(w, |less|);
      assert Received(w)[..k] == Received(less)[..k] && Received(w)[k] == Received(less)[k];
    }
  }

  /** The message reports the pending window of `s`: its packets, and when they came. */
  ghost predicate Describes(m: Report, s: Recorder, media: u32)
  {
    Reported(m, s, media) && Timed(m, s)
  }

  /** Whose packets, from which number on and how many, and which of them the ring has. */
  ghost predicate Reported(m: Report, s: Recorder, media: u32)
  {
    && m.senderSsrc == 1 && m.mediaSsrc == media
    && m.base == s.base && m.count == (s.max - s.base + 1) % 0x1_0000 && m.fbCount == s.fbCount
    && |m.symbols| == m.count
    && (forall i :: 0 <= i < m.count ==>
          (m.symbols[i] != 0 <==> Lookup(s.log, CAPACITY, (m.base + i) % 0x1_0000).Some?))
  }

  /** The times in the message: a reference of 64 ms units, and one delta a packet, in the size its symbol says. */
  ghost predicate Timed(m: Report, s: Recorder)
  {
    var w := Window(s.log, s.base, |m.symbols|);
    var r := Received(w);
    && s.baseTime.Some? && r != [] && |m.deltas| == |r|
    && m.refTime == Ticks(Since(r[0], s.baseTime.value)) / 256 % 0x100_0000
    && (forall k :: 0 <= k < |r| ==> m.deltas[k] == Clamp(Delta(r, s.baseTime.value, k), -8192, 8191))
    && (forall i :: 0 <= i < |m.symbols| && w[i].Some? ==>
          (m.symbols[i] == 1 <==>
           |Received(w[..i])| < |r| && 0 <= Delta(r, s.baseTime.value, |Received(w[..i])|) <= 255))
  }

  lemma {:induction false} SymbolAt(s: Recorder, media: u32, i: nat)
    requires FeedbackOutcome(s).Sent? && s.baseTime.Some? && i < Pending(s)
    ensures var m := FeedbackReport(s, media);
            && (m.symbols[i] != 0 <==> Lookup(s.log, CAPACITY, (s.base + i) % 0x1_0000).Some?)
            && (m.symbols[i] == 1 <==> Statuses(Window(s.log, s.base, Pending(s)), s.baseTime.value)[i] == SmallDelta)
  {
    StatusMeansHeard(Window(s.log, s.base, Pending(s)), s.baseTime.value, i);
    assert Window(s.log, s.base, Pending(s))[i] == Lookup(s.log, CAPACITY, Wrap16(s.base + i));
  }

  lemma {:induction false} ReportTimed(s: Recorder, media: u32)
    requires FeedbackOutcome(s).Sent? && s.baseTime.Some?
    ensures Timed(FeedbackReport(s, media), s)
  {
    var m, baseTime := FeedbackReport(s, media), s.baseTime.value;
    var w := Window(s.log, s.base, Pending(s));
    forall i | 0 <= i < |m.symbols| && w[i].Some?
      ensures |Received(w[..i])| < |Received(w)|
      ensures m.symbols[i] == 1 <==> 0 <= Delta(Received(w), baseTime, |Received(w[..i])|) <= 255
    {
      SymbolAt(s, media, i);
      StatusMeansSize(w, baseTime, i);
    }
  }

  lemma {:induction false} ReportDescribes(s: Recorder, media: u32)
    requires FeedbackOutcome(s).Sent? && s.baseTime.Some?
    ensures Describes(FeedbackReport(s, media), s, media)
  {
    var m := FeedbackReport(s, media);
    forall i | 0 <= i < m.count
      ensures m.symbols[i] != 0 <==> Lookup(s.log, CAPACITY, (m.base + i) % 0x1_0000).Some?
    {
      SymbolAt(s, media, i);
    }
    ReportTimed(s, media);
  }

  // --- the recorder ---

  class TwccRecorder {
    var arrivals: array<Option<Stored<Instant>>>
    var pendingBaseSeq: u16
    var maxSeq: u16
    var started: bool
    var count: nat
    var baseTime: Option<Instant>
    var fbPktCount: u8
    /** Every record ever made, oldest first. */
    ghost var log: seq<Stored<Instant>>

    ghost predicate Valid()
      reads this, arrivals
    {
      && arrivals.Length == CAPACITY
      && (forall c :: 0 <= c < CAPACITY ==> arrivals[c] == Newest(log, CAPACITY, c))
      && started == (log != [])
      && baseTime.Some? == started
      && count == |log|
    }

    ghost function View(): Recorder
      reads this
    {
      Recorder(log, pendingBaseSeq, maxSeq, baseTime, fbPktCount)
    }

    constructor ()
      ensures Valid() && fresh(arrivals)
      ensures View() == FRESH
    {
      arrivals := new Option<Stored<Instant>>[CAPACITY](_ => None);
      pendingBaseSeq, maxSeq, started, count, baseTime, fbPktCount := 0, 0, false, 0, None, 0;
      log := [];
    }

    method Record(twccSeq: u16, arrival: Instant)
      requires Valid()
      modifies this, arrivals
      ensures Valid() && arrivals == old(arrivals)
      ensures View() == Recorded(old(View()), twccSeq, arrival)
    {
      var idx := twccSeq % CAPACITY;
      arrivals[idx] := Some(Stored(twccSeq, arrival));
      count := count + 1;
      if !started {
        started := true;
        pendingBaseSeq := twccSeq;
        maxSeq := twccSeq;
        baseTime := Some(arrival);
      } else {
        var diff := Wrap16(twccSeq - maxSeq);
        if diff > 0 && diff < 0x8000 {
          maxSeq := twccSeq;
        }
      }
      NewestAppend(log, Stored(twccSeq, arrival), CAPACITY);
      log := log + [Stored(twccSeq, arrival)];
    }

    method Get(twccSeq: u16) returns (r: Option<Instant>)
      requires Valid()
      ensures r == Lookup(log, CAPACITY, twccSeq)
      ensures forall t: Instant :: r == Some(t) <==> exists i :: Held(log, CAPACITY, i) && log[i] == Stored(twccSeq, t)
    {
      var e := arrivals[twccSeq % CAPACITY];
      r := if e.Some? && e.value.key == twccSeq then Some(e.value.val) else None;
      forall t: Instant ensures r == Some(t) <==> exists i :: Held(log, CAPACITY, i) && log[i] == Stored(twccSeq, t) {
        LookupIffHeld(log, CAPACITY, twccSeq, t);
      }
    }

    method AdvanceBase(newBase: u16)
      requires Valid()
      modifies this`pendingBaseSeq
      ensures Valid() && View() == old(View()).(base := newBase)
    {
      pendingBaseSeq := newBase;
    }

    method PendingCount() returns (n: u16)
      requires Valid()
      ensures n == Pending(View())
    {
      if !started {
        return 0;
      }
      n := Wrap16(Wrap16(maxSeq - pendingBaseSeq) + 1);
    }
  }

  // --- the builder ---

  /** Packs the seven slots from `i` on; slots past the end are "not received". */
  method EncodeChunk(statuses: seq<Status>, i: nat) returns (chunk: u16)
    requires i < |statuses|
    ensures chunk == PackedChunk(Group(statuses[i..]))
  {
    ghost var group := Group(statuses[i..]);
    var c := 0xC000;
    for slot := 0 to 7
      invariant c == 0xC000 + PackedSlots(group, slot)
    {
      var status := if i + slot < |statuses| then statuses[i + slot] else NotReceived;
      assert status.Code() == SlotCode(group, slot);
      PackedSlotsClear(group, slot); // the or below only sets clear bits
      c := c + (status.Code() as int) * Quad(6 - slot);
    }
    PackedSlotsAre(group);
    chunk := c;
  }

  method EncodeStatusChunks(statuses: seq<Status>) returns (chunks: seq<u16>)
    ensures chunks == StatusChunks(statuses)
  {
    chunks := [];
    var i := 0;
    ghost var rest := statuses;
    while i < |statuses|
      invariant 0 <= i && rest == if i <= |statuses| then statuses[i..] else []
      invariant chunks + StatusChunks(rest) == StatusChunks(statuses)
      decreases |statuses| - i
    {
      var chunk := EncodeChunk(statuses, i);
      Assoc(chunks, [chunk], StatusChunks(rest[|Group(rest)|..]));
      chunks := chunks + [chunk];
      rest := rest[|Group(rest)|..];
      i := i + 7;
    }
  }

  lemma DeltaStep(bytes: seq<u8>, statuses: seq<Status>, i: nat, deltas: seq<int>, at: nat, all: seq<u8>)
    requires i < |statuses| && at <= |deltas| && bytes + DeltaBytes(statuses[i..], deltas[at..]) == all
    ensures if statuses[i] == NotReceived || at == |deltas| then
              bytes + DeltaBytes(statuses[i + 1..], deltas[at..]) == all
            else
              bytes + (if statuses[i] == SmallDelta then [Clamp(deltas[at], 0, 255)]
                       else Bytes16(Wrap16(Clamp(deltas[at], -8192, 8191))))
              + DeltaBytes(statuses[i + 1..], deltas[at + 1..]) == all
  {
    assert statuses[i..][1..] == statuses[i + 1..];
    assert at < |deltas| ==> deltas[at..][1..] == deltas[at + 1..];
  }

  method EncodeRecvDeltas(statuses: seq<Status>, deltas: seq<int>) returns (bytes: seq<u8>)
    ensures bytes == DeltaBytes(statuses, deltas)
  {
    bytes := [];
    var deltaIdx := 0;
    for i := 0 to |statuses|
      invariant 0 <= deltaIdx <= |deltas|
      invariant bytes + DeltaBytes(statuses[i..], deltas[deltaIdx..]) == DeltaBytes(statuses, deltas)
    {
      DeltaStep(bytes, statuses, i, deltas, deltaIdx, DeltaBytes(statuses, deltas));
      match statuses[i] {
        case SmallDelta =>
          if deltaIdx < |deltas| {
            bytes := bytes + [Clamp(deltas[deltaIdx], 0, 255)];
            deltaIdx := deltaIdx + 1;
          }
        case LargeDelta =>
          if deltaIdx < |deltas| {
            bytes := bytes + Bytes16(Wrap16(Clamp(deltas[deltaIdx], -8192, 8191)));
            deltaIdx := deltaIdx + 1;
          }
        case NotReceived =>
      }
    }
  }

  /** Body lengths without and with padding, and the padded one in words. */
  method Sizes(payloadLen: nat) returns (bodyLen: nat, paddedBody: nat, words: nat)
    requires payloadLen >= 8
    ensures bodyLen == 12 + payloadLen && paddedBody == bodyLen + PadCount(payloadLen - 8)
    ensures words == LengthWords(payloadLen - 8)
  {
    bodyLen := 12 + payloadLen;
    paddedBody := (bodyLen + 3) / 4 * 4;
    words := paddedBody / 4;
    assert paddedBody - bodyLen == PadCount(payloadLen - 8);
  }

  method PushChunks(start: seq<u8>, chunks: seq<u16>) returns (buf: seq<u8>)
    ensures buf == start + ChunkBytes(chunks)
  {
    buf := start;
    for k := 0 to |chunks|
      invariant buf == start + ChunkBytes(chunks[..k])
    {
      ChunkBytesAppend(chunks[..k], chunks[k]);
      assert chunks[..k + 1] == chunks[..k] + [chunks[k]];
      buf := buf + Bytes16(chunks[k]);
    }
    assert chunks[..|chunks|] == chunks;
  }

  method PushTail(start: seq<u8>, totalLen: nat, bodyLen: nat, needPadding: bool) returns (buf: seq<u8>)
    requires 4 <= totalLen - |start| < 8 && 4 + bodyLen == |start| + 4 && needPadding == (totalLen > 4 + bodyLen)
    ensures buf == start + Tail(totalLen - |start| - 4)
  {
    buf := start;
    while |buf| < totalLen
      invariant |start| <= |buf| <= totalLen
      invariant buf == start + Zeros(|buf| - |start|)
    {
      buf := buf + [0];
    }
    if needPadding {
      buf := buf[|buf| - 1 := totalLen - (4 + bodyLen)];
    }
  }

  method PushHead(needPadding: bool, words: u16, media: u32, base: u16, count: u16, refTime: int, fbCount: u8)
    returns (buf: seq<u8>)
    requires 0 <= refTime < 0x100_0000
    ensures buf == Head(needPadding, words, media, base, count, refTime, fbCount)
  {
    buf := [if needPadding then 0xAF else 0x8F, 205] + Bytes16(words) + Bytes32(1) + Bytes32(media) +
    Bytes16(base) + Bytes16(count) + [refTime / 0x1_0000, refTime / 0x100 % 0x100, refTime % 0x100, fbCount];
  }

  /** Lays out the RTCP packet: header, chunks, deltas, zero octets, padding count. */
  method AssembleFeedback(media: u32, base: u16, count: u16, refTime: int, fbCount: u8, chunks: seq<u16>,
                          deltaBytes: seq<u8>)
    returns (buf: seq<u8>)
    requires 0 <= refTime < 0x100_0000
    requires 2 * |chunks| + |deltaBytes| <= 0x1_0000
    ensures buf == Assemble(ChunkBytes(chunks) + deltaBytes, media, base, count, refTime, fbCount)
  {
    var payloadLen := 8 + |chunks| * 2 + |deltaBytes|;
    var bodyLen, paddedBody, words := Sizes(payloadLen);
    var needPadding := paddedBody > bodyLen;
    var totalLen := 4 + paddedBody;
    buf := PushHead(needPadding, words, media, base, count, refTime, fbCount);
    Assoc(buf, ChunkBytes(chunks), deltaBytes);
    buf := PushChunks(buf, chunks);
    buf := buf + deltaBytes;
    buf := PushTail(buf, totalLen, bodyLen, needPadding);
  }

  /** One more packet of the window: what it adds to the three lists. */
  lemma WindowStep(w: seq<Option<Instant>>, baseTime: Instant, i: nat)
    requires i < |w|
    ensures w[i].None? ==>
              && Received(w[..i + 1]) == Received(w[..i])
              && Statuses(w[..i + 1], baseTime) == Statuses(w[..i], baseTime) + [NotReceived]
    ensures w[i].Some? ==>
              var r, d := Received(w[..i]), NextDelta(LastOf(Received(w[..i])), w[i].value, baseTime);
              && Received(w[..i + 1]) == r + [w[i].value]
              && Deltas(r + [w[i].value], baseTime) == Deltas(r, baseTime) + [d]
              && Statuses(w[..i + 1], baseTime) == Statuses(w[..i], baseTime) + [StatusOf(d)]
  {
    assert w[..i + 1][..i] == w[..i];
    if w[i].Some? {
      DeltasAppend(Received(w[..i]), w[i].value, baseTime);
    }
  }

  /** Statuses and deltas of the pending window, read from the ring packet by packet. */
  method CollectArrivals(recorder: TwccRecorder, baseTime: Instant, baseSeq: u16, count: u16)
    returns (statuses: seq<Status>, deltas: seq<int>, first: Option<Instant>)
    requires recorder.Valid()
    ensures var w := Window(recorder.log, baseSeq, count);
            var r := Received(w);
            && statuses == Statuses(w, baseTime)
            && deltas == Deltas(r, baseTime)
            && first == if r == [] then None else Some(r[0])
  {
    statuses, deltas, first := [], [], None;
    var prev: Option<Instant> := None;
    ghost var w := Window(recorder.log, baseSeq, count);
    ghost var r: seq<Instant> := [];
    for i := 0 to count
      invariant r == Received(w[..i]) && prev == LastOf(r)
      invariant first == if r == [] then None else Some(r[0])
      invariant statuses == Statuses(w[..i], baseTime)
      invariant deltas == Deltas(r, baseTime)
    {
      var entry := recorder.Get(Wrap16(baseSeq + i));
      assert entry == w[i];
      WindowStep(w, baseTime, i);
      if entry.Some? {
        if first.None? {
          first := entry;
        }
        var delta := NextDelta(prev, entry.value, baseTime);
        statuses := statuses + [StatusOf(delta)];
        deltas := deltas + [delta];
        prev := entry;
        r := r + [entry.value];
      } else {
        statuses := statuses + [NotReceived];
      }
    }
    assert w[..count] == w;
  }

  method EncodeFeedback(media: u32, base: u16, refTime: int, fbCount: u8, statuses: seq<Status>, deltas: seq<int>)
    returns (buf: seq<u8>)
    requires |statuses| <= CAPACITY && 0 <= refTime < 0x100_0000 && ReceivedCount(statuses) == |deltas|
    ensures ReadFeedback(buf) ==
            Some(Report(1, media, base, |statuses|, refTime, fbCount, Codes(statuses), SentDeltas(statuses, deltas), 4))
  {
    var chunks := EncodeStatusChunks(statuses);
    var deltaBytes := EncodeRecvDeltas(statuses, deltas);
    DeltaBytesLength(statuses, deltas);
    buf := AssembleFeedback(media, base, |statuses|, refTime, fbCount, chunks, deltaBytes);
    FeedbackReads(media, base, refTime, fbCount, statuses, deltas);
  }

  /** A message went out: the next count, and a window that starts behind what was reported. */
  method CountSent(recorder: TwccRecorder, pending: u16)
    modifies recorder`pendingBaseSeq, recorder`fbPktCount
    ensures recorder.View() == old(recorder.View()).(base := Wrap16(old(recorder.pendingBaseSeq) + pending),
                                                     fbCount := (old(recorder.fbPktCount) + 1) % 0x100)
  {
    recorder.fbPktCount := (recorder.fbPktCount + 1) % 0x100;
    recorder.pendingBaseSeq := Wrap16(recorder.pendingBaseSeq + pending);
  }

  /** The message for a window, from what was collected of it. */
  method EncodeWindow(ghost s: Recorder, media: u32, base: u16, pending: u16, fbCount: u8, baseTime: Instant,
                      first: Instant, statuses: seq<Status>, deltas: seq<int>)
    returns (buf: seq<u8>)
    requires FeedbackOutcome(s) == Sent(base, pending) && pending <= CAPACITY
    requires s.baseTime == Some(baseTime) && s.fbCount == fbCount
    requires var w := Window(s.log, base, pending);
             && Received(w) != [] && first == Received(w)[0]
             && statuses == Statuses(w, baseTime) && deltas == Deltas(Received(w), baseTime)
    ensures ReadFeedback(buf) == Some(FeedbackReport(s, media))
  {
    var reference := Ticks(Since(first, baseTime)) / 256 % 0x100_0000;
    StatusesCarryDeltas(Window(s.log, base, pending), baseTime);
    buf := EncodeFeedback(media, base, reference, fbCount, statuses, deltas);
  }

  /** The builder past its guards: at least one and at most a ring of numbers pending. */
  method ReportWindow(recorder: TwccRecorder, mediaSsrc: u32, pending: u16) returns (r: Option<seq<u8>>)
    requires recorder.Valid() && recorder.started
    requires pending == Pending(recorder.View()) && 0 < pending <= CAPACITY
    modifies recorder`pendingBaseSeq, recorder`fbPktCount
    ensures recorder.View() == AfterFeedback(old(recorder.View()))
    ensures r.Some? == FeedbackOutcome(old(recorder.View())).Sent?
    ensures r.Some? ==> ReadFeedback(r.value) == Some(FeedbackReport(old(recorder.View()), mediaSsrc))
  {
    ghost var s := recorder.View();
    var baseTime, baseSeq := recorder.baseTime.value, recorder.pendingBaseSeq;
    var statuses, deltas, first := CollectArrivals(recorder, baseTime, baseSeq, pending);
    if first.None? {
      assert FeedbackOutcome(s) == Unheard;
      return None;
    }
    assert FeedbackOutcome(s) == Sent(baseSeq, pending);
    var buf := EncodeWindow(s, mediaSsrc, baseSeq, pending, recorder.fbPktCount, baseTime, first.value, statuses,
                            deltas);
    AfterSent(s);
    CountSent(recorder, pending);
    r := Some(buf);
  }

  /**
   Builds the feedback for the pending window and moves the window on. A draft reader of the
   bytes recovers exactly `FeedbackReport`, which describes the window as it was.
   */
  method BuildTwccFeedback(recorder: TwccRecorder, mediaSsrc: u32) returns (r: Option<seq<u8>>)
    requires recorder.Valid()
    modifies recorder
    ensures recorder.Valid() && recorder.arrivals == old(recorder.arrivals)
    ensures recorder.View() == AfterFeedback(old(recorder.View()))
    ensures r.Some? == FeedbackOutcome(old(recorder.View())).Sent?
    ensures r.Some? ==> ReadFeedback(r.value) == Some(FeedbackReport(old(recorder.View()), mediaSsrc))
    ensures r.Some? ==> Describes(ReadFeedback(r.value).value, old(recorder.View()), mediaSsrc)
  {
    ghost var s := recorder.View();
    var pending := recorder.PendingCount();
    if !recorder.started || pending == 0 {
      assert FeedbackOutcome(s) == Nothing;
      return None;
    }
    if pending > CAPACITY {
      assert FeedbackOutcome(s) == Jump;
      assert AfterFeedback(s) == s.(base := Wrap16(s.max - 100));
      recorder.AdvanceBase(Wrap16(recorder.maxSeq - 100));
      return None;
    }
    r := ReportWindow(recorder, mediaSsrc, pending);
    if r.Some? {
      ReportDescribes(s, mediaSsrc);
    }
  }
}
